/** Images the switch recogniser accepts although their dispatch leaves the table. */
module JumpTableExamples {
  import opened Prelude
  import opened BitWords
  import opened Sorting
  import opened Mips
  import opened Machine
  import opened JumpTable
  import opened JumpTableSoundness
  import opened JumpTableExactness
  import JumpTableRepeats

  const LUI_3_0 := Fields(0x3C03_0000, 0x0F, 0, 3, 0, 0, 0, 0, true, Normal)
  const SLL_2_2 := Fields(0x0002_1080, 0, 0, 2, 2, 2, 0, 0x1080, true, Normal)
  const ADDU_2_2_3 := Fields(0x0043_1021, 0, 2, 3, 2, 0, 0x21, 0x1021, true, Normal)
  const LW_2_28 := Fields(0x8C42_0028, 0x23, 2, 2, 0, 0, 0x28, 0x28, true, Normal)
  const JR_2 := Fields(0x0040_0008, 0, 2, 0, 0, 0, 8, 8, true, JumpRegister)
  const JR_RA := Fields(0x03E0_0008, 0, 31, 0, 0, 0, 8, 8, true, Return)
  const DATA_24 := Fields(0x24, 0, 0, 0, 0, 0, 0x24, 0x24, true, Normal)
  const SLTIU_2_2_1 := Fields(0x2C42_0001, 0x0B, 2, 2, 0, 0, 1, 1, true, Normal)
  const SLTIU_4_2_1 := Fields(0x2C44_0001, 0x0B, 2, 4, 0, 0, 1, 1, true, Normal)
  const BEQ_2_24 := Fields(0x1040_0006, 4, 2, 0, 0, 0, 6, 6, true, Branch(0x24))
  const BEQ_4_C := Fields(0x1080_0000, 4, 4, 0, 0, 0, 0, 0, true, Branch(0xC))

  /** One-entry switches over `$2`, with the table behind the code at 0x28. */
  predicate OneEntrySwitch(p: Program, check: Insn, branch: Insn) {
    CheckAt(p, check, branch) && DispatchAt(p) && BehindDispatch(p)
  }

  predicate CheckAt(p: Program, check: Insn, branch: Insn) {
    p(0) == Some(LUI_3_0) && p(4) == Some(check) && p(8) == Some(branch) && p(0xC) == Some(NOP)
  }

  predicate DispatchAt(p: Program) {
    p(0x10) == Some(SLL_2_2) && p(0x14) == Some(ADDU_2_2_3) && p(0x18) == Some(LW_2_28) && p(0x1C) == Some(JR_2)
  }

  predicate BehindDispatch(p: Program) {
    p(0x20) == Some(NOP) && p(0x24) == Some(JR_RA) && p(0x28) == Some(DATA_24)
  }

  function Words(check: Word, branch: Word): seq<Word> {
    [0x3C03_0000, check, branch, 0, 0x0002_1080, 0x0043_1021, 0x8C42_0028, 0x0040_0008, 0, 0x03E0_0008, 0x24]
  }

  lemma CheckDecodes()
    ensures Decode(4, 0x2C42_0001) == SLTIU_2_2_1 && Decode(4, 0x2C44_0001) == SLTIU_4_2_1
    ensures Decode(8, 0x1040_0006) == BEQ_2_24 && Decode(8, 0x1080_0000) == BEQ_4_C
  {
  }

  lemma HeadDecodes()
    ensures Decode(0, 0x3C03_0000) == LUI_3_0 && Decode(0xC, 0) == NOP
    ensures Decode(4, 0x2463_0004) == ADDIU_3_4 && Decode(8, 0x2442_FFFF) == ADDIU_2_LESS
  {
  }

  lemma ListedCheck(words: seq<Word>, m: Image, checkWord: Word, branchWord: Word, check: Insn, branch: Insn)
    requires words == Words(checkWord, branchWord) && m == Image(Assemble(words), 0)
    requires Listing(m)(4) == Some(check) && Listing(m)(8) == Some(branch)
    ensures CheckAt(Listing(m), check, branch)
  {
    HeadDecodes();
    AssembledInsn(words, m, 0, 0, 0x3C03_0000, LUI_3_0);
    AssembledInsn(words, m, 3, 0xC, 0, NOP);
  }

  lemma ListedDispatch(words: seq<Word>, m: Image, checkWord: Word, branchWord: Word)
    requires words == Words(checkWord, branchWord) && m == Image(Assemble(words), 0)
    ensures DispatchAt(Listing(m))
  {
    DispatchDecodes();
    AssembledInsn(words, m, 4, 0x10, 0x0002_1080, SLL_2_2);
    AssembledInsn(words, m, 5, 0x14, 0x0043_1021, ADDU_2_2_3);
    AssembledInsn(words, m, 6, 0x18, 0x8C42_0028, LW_2_28);
    AssembledInsn(words, m, 7, 0x1C, 0x0040_0008, JR_2);
  }

  lemma DispatchDecodes()
    ensures Decode(0x10, 0x0002_1080) == SLL_2_2 && Decode(0x14, 0x0043_1021) == ADDU_2_2_3
    ensures Decode(0x18, 0x8C42_0028) == LW_2_28 && Decode(0x1C, 0x0040_0008) == JR_2
  {
  }

  lemma ListedBehind(words: seq<Word>, m: Image, checkWord: Word, branchWord: Word)
    requires words == Words(checkWord, branchWord) && m == Image(Assemble(words), 0)
    ensures BehindDispatch(Listing(m))
  {
    assert Decode(0x20, 0) == NOP && Decode(0x24, 0x03E0_0008) == JR_RA && Decode(0x28, 0x24) == DATA_24;
    AssembledInsn(words, m, 8, 0x20, 0, NOP);
    AssembledInsn(words, m, 9, 0x24, 0x03E0_0008, JR_RA);
    AssembledInsn(words, m, 10, 0x28, 0x24, DATA_24);
  }

  lemma ListedSwitch(words: seq<Word>, m: Image, checkWord: Word, branchWord: Word, check: Insn, branch: Insn)
    requires words == Words(checkWord, branchWord) && m == Image(Assemble(words), 0)
    requires Listing(m)(4) == Some(check) && Listing(m)(8) == Some(branch)
    ensures OneEntrySwitch(Listing(m), check, branch)
  {
    ListedCheck(words, m, checkWord, branchWord, check, branch);
    ListedDispatch(words, m, checkWord, branchWord);
    ListedBehind(words, m, checkWord, branchWord);
  }

  function OneEntry(guard: Reg, reject: int): Suffix { Suffix(0x1C, 0x18, 2, 2, 0x28, 2, 2, 3, guard, 1, reject) }

  const ZERO_TABLE := Constant(0, 0, 3, 0, 0)

  lemma OneEntryMatches(p: Program, guard: Reg, reject: int, check: Insn, branch: Insn)
    requires OneEntrySwitch(p, check, branch) && (guard == 2 || guard == 4)
    requires BoundFits(Some(check), 2) && check.rt == guard && check.imm == 1
    requires BranchFits(Some(branch), guard) && branch.flow == Branch(reject) && (reject == 0x24 || reject == 0xC)
    ensures MatchSuffix(p, 0, 0x28, 0x1C, 2) == Some(OneEntry(guard, reject))
    ensures TableConstant(p, 0, 3, 0x14) == Some(ZERO_TABLE)
  {
    assert NearestWriter(p, 3, 0, 0) == Some(0);
    assert NearestWriter(p, 3, 4, 0) == Some(0);
    assert NearestWriter(p, 3, 8, 0) == Some(0);
    assert NearestWriter(p, 3, 0xC, 0) == Some(0);
    assert NearestWriter(p, 3, 0x10, 0) == Some(0);
  }

  lemma OneEntryAccepted(p: Program, guard: Reg, reject: int, check: Insn, branch: Insn)
    requires OneEntrySwitch(p, check, branch) && (guard == 2 || guard == 4)
    requires BoundFits(Some(check), 2) && check.rt == guard && check.imm == 1
    requires BranchFits(Some(branch), guard) && branch.flow == Branch(reject) && (reject == 0x24 || reject == 0xC)
    ensures Recognise(p, 0, 0x28, 0, 0x2C, 0x1C, 2) == Some((OneEntry(guard, reject), ZERO_TABLE))
  {
    OneEntryMatches(p, guard, reject, check, branch);
    OneEntryTable(p, guard, reject, check, branch);
    OneEntryStraight(p, guard, reject, check, branch);
  }

  lemma OneEntryTable(p: Program, guard: Reg, reject: int, check: Insn, branch: Insn)
    requires OneEntrySwitch(p, check, branch)
    ensures TableFits(p, 0, 0x28, 0, 0x2C, OneEntry(guard, reject), ZERO_TABLE)
  {
    var s := OneEntry(guard, reject);
    forall k: nat | k < 1 ensures EntryFits(p, 0, 0x28, 0, 0x2C, TableWord(p, s, ZERO_TABLE, k)) {
      assert k == 0;
    }
  }

  lemma OneEntryStraight(p: Program, guard: Reg, reject: int, check: Insn, branch: Insn)
    requires OneEntrySwitch(p, check, branch) && IsSltiu(check)
    ensures Straight(p, 0, OneEntry(guard, reject), ZERO_TABLE)
  {
    forall pc | IsSource(4, pc, 0x10) ensures p(pc).Some? && (Transfers(p(pc)) ==> pc == 8) {
      assert pc == 4 || pc == 8 || pc == 0xC;
    }
  }

  lemma OneEntryHasNoStray(p: Program, guard: Reg, reject: int, check: Insn, branch: Insn)
    requires OneEntrySwitch(p, check, branch) && IsSltiu(check)
    requires branch.flow == Branch(reject) && (reject == 0x24 || reject == 0xC)
    ensures NoStray(p, 0, 0x28, OneEntry(guard, reject), ZERO_TABLE, {})
  {
    var s := OneEntry(guard, reject);
    forall source | IsSource(0, source, 0x28) ensures !StrayAt(p, s, ZERO_TABLE, {}, source) {
      assert source == 0 || source == 4 || source == 8 || source == 0xC || source == 0x10 || source == 0x14 || source == 0x18
        || source == 0x1C || source == 0x20 || source == 0x24;
    }
  }

  lemma OneEntryUnsound(p: Program, guard: Reg, reject: int, check: Insn, branch: Insn)
    requires OneEntrySwitch(p, check, branch) && (guard == 2 || guard == 4)
    requires BoundFits(Some(check), 2) && check.rt == guard && check.imm == 1
    requires BranchFits(Some(branch), guard) && branch.flow == Branch(reject)
    requires (guard == 2 && reject == 0x24) || (guard == 4 && reject == 0xC)
    ensures !CoreSound(p, OneEntry(guard, reject), ZERO_TABLE)
  {
    OneEntryAccepted(p, guard, reject, check, branch);
    GuardedExactly(p, 0, 0x28, 0, 0x2C, 0x1C, 2, OneEntry(guard, reject), ZERO_TABLE);
  }

  /**
   `sltiu $2,$2,1` in front of a one-entry table: the recogniser accepts, and an execution that falls
   through the check jumps to a word that is not in the table.
   */
  lemma SharedGuardExample() returns (p: Program)
    ensures p == Listing(Image(Assemble(Words(0x2C42_0001, 0x1040_0006)), 0))
    ensures Recognise(p, 0, 0x28, 0, 0x2C, 0x1C, 2) == Some((OneEntry(2, 0x24), ZERO_TABLE))
    ensures NoStray(p, 0, 0x28, OneEntry(2, 0x24), ZERO_TABLE, {}) && !CoreSound(p, OneEntry(2, 0x24), ZERO_TABLE)
  {
    var words := Words(0x2C42_0001, 0x1040_0006);
    var m := Image(Assemble(words), 0);
    p := Listing(m);
    CheckDecodes();
    AssembledInsn(words, m, 1, 4, 0x2C42_0001, SLTIU_2_2_1);
    AssembledInsn(words, m, 2, 8, 0x1040_0006, BEQ_2_24);
    ListedSwitch(words, m, 0x2C42_0001, 0x1040_0006, SLTIU_2_2_1, BEQ_2_24);
    OneEntryAccepted(p, 2, 0x24, SLTIU_2_2_1, BEQ_2_24);
    OneEntryHasNoStray(p, 2, 0x24, SLTIU_2_2_1, BEQ_2_24);
    OneEntryUnsound(p, 2, 0x24, SLTIU_2_2_1, BEQ_2_24);
  }

  /** `beq $4,$0` to its own delay slot: the recogniser accepts a check that rejects nothing. */
  lemma RejectedSlotExample() returns (p: Program)
    ensures p == Listing(Image(Assemble(Words(0x2C44_0001, 0x1080_0000)), 0))
    ensures Recognise(p, 0, 0x28, 0, 0x2C, 0x1C, 2) == Some((OneEntry(4, 0xC), ZERO_TABLE))
    ensures NoStray(p, 0, 0x28, OneEntry(4, 0xC), ZERO_TABLE, {}) && !CoreSound(p, OneEntry(4, 0xC), ZERO_TABLE)
  {
    var words := Words(0x2C44_0001, 0x1080_0000);
    var m := Image(Assemble(words), 0);
    p := Listing(m);
    CheckDecodes();
    AssembledInsn(words, m, 1, 4, 0x2C44_0001, SLTIU_4_2_1);
    AssembledInsn(words, m, 2, 8, 0x1080_0000, BEQ_4_C);
    ListedSwitch(words, m, 0x2C44_0001, 0x1080_0000, SLTIU_4_2_1, BEQ_4_C);
    OneEntryAccepted(p, 4, 0xC, SLTIU_4_2_1, BEQ_4_C);
    OneEntryHasNoStray(p, 4, 0xC, SLTIU_4_2_1, BEQ_4_C);
    OneEntryUnsound(p, 4, 0xC, SLTIU_4_2_1, BEQ_4_C);
  }

  // ---- A rejected edge that repeats the table's definition -------------------

  const ADDIU_3_4 := Fields(0x2463_0004, 9, 3, 3, 0, 0, 4, 4, true, Normal)
  const ADDIU_2_LESS := Fields(0x2442_FFFF, 9, 2, 2, 0x1F, 0x1F, 0x3F, 0xFFFF, true, Normal)
  const BEQ_4_4 := Fields(0x1080_FFFC, 4, 4, 0, 0x1F, 0x1F, 0x3C, 0xFFFC, true, Branch(4))
  const SLL_5_2 := Fields(0x0002_2880, 0, 0, 2, 5, 2, 0, 0x2880, true, Normal)
  const ADDU_5_5_3 := Fields(0x00A3_2821, 0, 5, 3, 5, 0, 0x21, 0x2821, true, Normal)
  const LW_5_2C := Fields(0x8CA5_002C, 0x23, 5, 5, 0, 0, 0x2C, 0x2C, true, Normal)
  const JR_5 := Fields(0x00A0_0008, 0, 5, 0, 0, 0, 8, 8, true, JumpRegister)
  const DATA_2C := Fields(0x2C, 0, 0, 0, 0, 0, 0x2C, 0x2C, false, Normal)

  /** `lui $3; addiu $3,$3,4; addiu $2,$2,-1; sltiu $4,$2,1; beq $4,$0` back to the first `addiu`, then the dispatch. */
  const REDEFINING: seq<Word> := [0x3C03_0000, 0x2463_0004, 0x2442_FFFF, 0x2C44_0001, 0x1080_FFFC, 0, 0x0002_2880,
                                  0x00A3_2821, 0x8CA5_002C, 0x00A0_0008, 0, 0x03E0_0008, 0x2C]

  predicate RedefiningHead(p: Program) { RedefiningAdds(p) && RedefiningCheck(p) }

  predicate RedefiningAdds(p: Program) {
    p(0) == Some(LUI_3_0) && p(4) == Some(ADDIU_3_4) && p(8) == Some(ADDIU_2_LESS)
  }

  predicate RedefiningCheck(p: Program) {
    p(0xC) == Some(SLTIU_4_2_1) && p(0x10) == Some(BEQ_4_4) && p(0x14) == Some(NOP)
  }

  predicate RedefiningTail(p: Program) {
    && p(0x18) == Some(SLL_5_2) && p(0x1C) == Some(ADDU_5_5_3) && p(0x20) == Some(LW_5_2C) && p(0x24) == Some(JR_5)
    && p(0x28) == Some(NOP) && p(0x2C) == Some(JR_RA) && p(0x30) == Some(DATA_2C)
  }

  lemma RedefiningAddsListed(words: seq<Word>, m: Image)
    requires words == REDEFINING && m == Image(Assemble(words), 0)
    ensures RedefiningAdds(Listing(m))
  {
    HeadDecodes();
    AssembledInsn(words, m, 0, 0, 0x3C03_0000, LUI_3_0);
    AssembledInsn(words, m, 1, 4, 0x2463_0004, ADDIU_3_4);
    AssembledInsn(words, m, 2, 8, 0x2442_FFFF, ADDIU_2_LESS);
  }

  lemma RedefiningCheckListed(words: seq<Word>, m: Image)
    requires words == REDEFINING && m == Image(Assemble(words), 0)
    ensures RedefiningCheck(Listing(m))
  {
    CheckDecodesBehind();
    SlotDecodes();
    BackwardDecodes();
    AssembledInsn(words, m, 3, 0xC, 0x2C44_0001, SLTIU_4_2_1);
    AssembledInsn(words, m, 4, 0x10, 0x1080_FFFC, BEQ_4_4);
    AssembledInsn(words, m, 5, 0x14, 0, NOP);
  }

  lemma RedefiningTailListed(words: seq<Word>, m: Image)
    requires words == REDEFINING && m == Image(Assemble(words), 0)
    ensures RedefiningTail(Listing(m))
  {
    RedefiningDecodesBehind();
    AssembledInsn(words, m, 6, 0x18, 0x0002_2880, SLL_5_2);
    AssembledInsn(words, m, 7, 0x1C, 0x00A3_2821, ADDU_5_5_3);
    AssembledInsn(words, m, 8, 0x20, 0x8CA5_002C, LW_5_2C);
    AssembledInsn(words, m, 9, 0x24, 0x00A0_0008, JR_5);
    AssembledInsn(words, m, 10, 0x28, 0, NOP);
    AssembledInsn(words, m, 11, 0x2C, 0x03E0_0008, JR_RA);
    AssembledInsn(words, m, 12, 0x30, 0x2C, DATA_2C);
  }

  lemma SlotDecodes()
    ensures Decode(0x14, 0) == NOP
  {
  }

  lemma CheckDecodesBehind()
    ensures Decode(0xC, 0x2C44_0001) == SLTIU_4_2_1
  {
  }

  lemma BackwardDecodes()
    ensures Decode(0x10, 0x1080_FFFC) == BEQ_4_4
  {
  }

  lemma RedefiningDecodesBehind()
    ensures Decode(0x18, 0x0002_2880) == SLL_5_2 && Decode(0x1C, 0x00A3_2821) == ADDU_5_5_3
    ensures Decode(0x20, 0x8CA5_002C) == LW_5_2C && Decode(0x24, 0x00A0_0008) == JR_5
    ensures Decode(0x28, 0) == NOP && Decode(0x2C, 0x03E0_0008) == JR_RA && Decode(0x30, 0x2C) == DATA_2C
  {
  }

  const LOOPING := Suffix(0x24, 0x20, 5, 5, 0x2C, 5, 2, 3, 4, 1, 4)
  const FOUR_TABLE := Constant(0, 4, 3, 0, 4)

  lemma RedefiningMatches(p: Program)
    requires RedefiningHead(p) && RedefiningTail(p)
    ensures MatchSuffix(p, 0, 0x30, 0x24, 5) == Some(LOOPING)
    ensures TableConstant(p, 0, 3, 0x1C) == Some(FOUR_TABLE)
  {
    assert NearestWriter(p, 3, 0, 0) == Some(0);
    assert NearestWriter(p, 3, 4, 0) == Some(4);
    assert NearestWriter(p, 3, 8, 0) == Some(4);
    assert NearestWriter(p, 3, 0xC, 0) == Some(4);
    assert NearestWriter(p, 3, 0x10, 0) == Some(4);
    assert NearestWriter(p, 3, 0x14, 0) == Some(4);
    assert NearestWriter(p, 3, 0x18, 0) == Some(4);
  }

  lemma RedefiningAccepted(p: Program)
    requires RedefiningHead(p) && RedefiningTail(p)
    ensures Recognise(p, 0, 0x30, 0, 0x34, 0x24, 5) == Some((LOOPING, FOUR_TABLE))
    ensures NoStray(p, 0, 0x30, LOOPING, FOUR_TABLE, {}) && TargetsOf(p, LOOPING, FOUR_TABLE) == {0x2C}
  {
    RedefiningMatches(p);
    forall k: nat | k < 1 ensures EntryFits(p, 0, 0x30, 0, 0x34, TableWord(p, LOOPING, FOUR_TABLE, k)) {
      assert k == 0;
    }
    assert TableWord(p, LOOPING, FOUR_TABLE, 0) == Some(DATA_2C);
    forall pc | IsSource(4, pc, 0x18) ensures p(pc).Some? && (Transfers(p(pc)) ==> pc == 0x10) {
      assert pc == 4 || pc == 8 || pc == 0xC || pc == 0x10 || pc == 0x14;
    }
    forall source | IsSource(0, source, 0x30) ensures !StrayAt(p, LOOPING, FOUR_TABLE, {}, source) {
      assert source == 0 || source == 4 || source == 8 || source == 0xC || source == 0x10 || source == 0x14 || source == 0x18
        || source == 0x1C || source == 0x20 || source == 0x24 || source == 0x28 || source == 0x2C;
    }
  }

  /** Registers `$2`, `$3`, `$4` and `$5`, with zeros everywhere else. */
  function Four(r2: Word, r3: Word, r4: Word, r5: Word): seq<Word> {
    seq(32, i => if i == 2 then r2 else if i == 3 then r3 else if i == 4 then r4 else if i == 5 then r5 else 0)
  }

  function TableOnly(a: int): Word { if a == 0x30 then 0x2C else 1 }

  function Now(pc: int, npc: int, regs: seq<Word>): Cpu { Cpu(pc, npc, regs, TableOnly) }

  /** A run over the table in memory that ends at the `jr` with the wrong word. */
  ghost predicate GoesWrong(p: Program, u: Cpu, run: seq<Cpu>) {
    && run != [] && run[0] == u && IsRun(p, run) && (forall i :: 0 <= i < |run| ==> run[i].mem == TableOnly)
    && run[|run|-1].pc == 0x24 && |run[|run|-1].regs| == 32 && run[|run|-1].regs[5] == 1
  }

  lemma Before(p: Program, u: Cpu, d: Cpu, run: seq<Cpu>) returns (longer: seq<Cpu>)
    requires GoesWrong(p, d, run) && Step(p, u, d) && u.mem == TableOnly
    ensures GoesWrong(p, u, longer)
  {
    longer := [u] + run;
    forall i | 0 <= i < |longer| - 1 ensures StepAt(p, longer, i) {
      if i > 0 { assert StepAt(p, run, i - 1); }
    }
  }

  lemma WrongLoad(p: Program)
    requires RedefiningTail(p)
    ensures Step(p, Now(0x20, 0x24, Four(0, 8, 1, 8)), Now(0x24, 0x28, Four(0, 8, 1, 1)))
  {
  }

  lemma WrongAddress(p: Program)
    requires RedefiningTail(p)
    ensures Step(p, Now(0x18, 0x1C, Four(0, 8, 1, 0)), Now(0x1C, 0x20, Four(0, 8, 1, 0)))
    ensures Step(p, Now(0x1C, 0x20, Four(0, 8, 1, 0)), Now(0x20, 0x24, Four(0, 8, 1, 8)))
  {
    assert Pow2(2) == 4;
  }

  lemma WrongDispatch(p: Program) returns (run: seq<Cpu>)
    requires RedefiningTail(p)
    ensures GoesWrong(p, Now(0x18, 0x1C, Four(0, 8, 1, 0)), run)
  {
    run := [Now(0x24, 0x28, Four(0, 8, 1, 1))];
    WrongLoad(p);
    run := Before(p, Now(0x20, 0x24, Four(0, 8, 1, 8)), Now(0x24, 0x28, Four(0, 8, 1, 1)), run);
    WrongAddress(p);
    run := Before(p, Now(0x1C, 0x20, Four(0, 8, 1, 0)), Now(0x20, 0x24, Four(0, 8, 1, 8)), run);
    run := Before(p, Now(0x18, 0x1C, Four(0, 8, 1, 0)), Now(0x1C, 0x20, Four(0, 8, 1, 0)), run);
  }

  lemma SecondCheck(p: Program)
    requires RedefiningHead(p)
    ensures Step(p, Now(0xC, 0x10, Four(0, 8, 0, 0)), Now(0x10, 0x14, Four(0, 8, 1, 0)))
    ensures Step(p, Now(0x10, 0x14, Four(0, 8, 1, 0)), Now(0x14, 0x18, Four(0, 8, 1, 0)))
    ensures Step(p, Now(0x14, 0x18, Four(0, 8, 1, 0)), Now(0x18, 0x1C, Four(0, 8, 1, 0)))
  {
  }

  lemma SecondAdds(p: Program)
    requires RedefiningHead(p)
    ensures Step(p, Now(4, 8, Four(1, 4, 0, 0)), Now(8, 0xC, Four(1, 8, 0, 0)))
    ensures Step(p, Now(8, 0xC, Four(1, 8, 0, 0)), Now(0xC, 0x10, Four(0, 8, 0, 0)))
  {
  }

  /** The second pass adds to the table register again, and the check passes. */
  lemma SecondPass(p: Program, wrong: seq<Cpu>) returns (run: seq<Cpu>)
    requires RedefiningHead(p) && GoesWrong(p, Now(0x18, 0x1C, Four(0, 8, 1, 0)), wrong)
    ensures GoesWrong(p, Now(4, 8, Four(1, 4, 0, 0)), run)
  {
    SecondCheck(p);
    run := Before(p, Now(0x14, 0x18, Four(0, 8, 1, 0)), Now(0x18, 0x1C, Four(0, 8, 1, 0)), wrong);
    run := Before(p, Now(0x10, 0x14, Four(0, 8, 1, 0)), Now(0x14, 0x18, Four(0, 8, 1, 0)), run);
    run := Before(p, Now(0xC, 0x10, Four(0, 8, 0, 0)), Now(0x10, 0x14, Four(0, 8, 1, 0)), run);
    SecondAdds(p);
    run := Before(p, Now(8, 0xC, Four(1, 8, 0, 0)), Now(0xC, 0x10, Four(0, 8, 0, 0)), run);
    run := Before(p, Now(4, 8, Four(1, 4, 0, 0)), Now(8, 0xC, Four(1, 8, 0, 0)), run);
  }

  lemma FirstCheck(p: Program)
    requires RedefiningHead(p)
    ensures Step(p, Now(0xC, 0x10, Four(1, 4, 0, 0)), Now(0x10, 0x14, Four(1, 4, 0, 0)))
    ensures Step(p, Now(0x10, 0x14, Four(1, 4, 0, 0)), Now(0x14, 4, Four(1, 4, 0, 0)))
    ensures Step(p, Now(0x14, 4, Four(1, 4, 0, 0)), Now(4, 8, Four(1, 4, 0, 0)))
  {
  }

  lemma FirstAdds(p: Program)
    requires RedefiningHead(p)
    ensures Step(p, Now(0, 4, Four(2, 0, 0, 0)), Now(4, 8, Four(2, 0, 0, 0)))
    ensures Step(p, Now(4, 8, Four(2, 0, 0, 0)), Now(8, 0xC, Four(2, 4, 0, 0)))
    ensures Step(p, Now(8, 0xC, Four(2, 4, 0, 0)), Now(0xC, 0x10, Four(1, 4, 0, 0)))
  {
  }

  /** The first pass, with index 1 after the decrement: rejected. */
  lemma FirstPass(p: Program, wrong: seq<Cpu>) returns (run: seq<Cpu>)
    requires RedefiningHead(p) && GoesWrong(p, Now(4, 8, Four(1, 4, 0, 0)), wrong)
    ensures GoesWrong(p, Now(0, 4, Four(2, 0, 0, 0)), run)
  {
    FirstCheck(p);
    run := Before(p, Now(0x14, 4, Four(1, 4, 0, 0)), Now(4, 8, Four(1, 4, 0, 0)), wrong);
    run := Before(p, Now(0x10, 0x14, Four(1, 4, 0, 0)), Now(0x14, 4, Four(1, 4, 0, 0)), run);
    run := Before(p, Now(0xC, 0x10, Four(1, 4, 0, 0)), Now(0x10, 0x14, Four(1, 4, 0, 0)), run);
    FirstAdds(p);
    run := Before(p, Now(8, 0xC, Four(2, 4, 0, 0)), Now(0xC, 0x10, Four(1, 4, 0, 0)), run);
    run := Before(p, Now(4, 8, Four(2, 0, 0, 0)), Now(8, 0xC, Four(2, 4, 0, 0)), run);
    run := Before(p, Now(0, 4, Four(2, 0, 0, 0)), Now(4, 8, Four(2, 0, 0, 0)), run);
  }

  lemma KeptByAll(p: Program, run: seq<Cpu>)
    requires forall i :: 0 <= i < |run| ==> run[i].mem == TableOnly
    requires p(0x30) == Some(DATA_2C)
    ensures TableKept(p, LOOPING, FOUR_TABLE, run)
  {
    assert TableWord(p, LOOPING, FOUR_TABLE, 0) == Some(DATA_2C);
  }

  /**
   The rejected edge lands between the `lui` and the `addiu`: the recogniser accepts, and a run from the
   `lui` with the table in memory reaches the `jr` with a word that is not in the table. It is one of the
   switches of which `RepeatedExactly` speaks.
   */
  lemma RedefinedTableExample() returns (p: Program, run: seq<Cpu>)
    ensures p == Listing(Image(Assemble(REDEFINING), 0))
    ensures Recognise(p, 0, 0x30, 0, 0x34, 0x24, 5) == Some((LOOPING, FOUR_TABLE))
    ensures NoStray(p, 0, 0x30, LOOPING, FOUR_TABLE, {}) && Guards(LOOPING, FOUR_TABLE)
    ensures JumpTableRepeats.Repeats(p, LOOPING, FOUR_TABLE) && JumpTableRepeats.OpenWords(p, LOOPING, FOUR_TABLE)
    ensures run != [] && IsRun(p, run) && run[0].pc == FOUR_TABLE.constant && TableKept(p, LOOPING, FOUR_TABLE, run)
    ensures var end := run[|run|-1]; end.pc == 0x24 && |end.regs| == 32 && end.regs[5] !in TargetsOf(p, LOOPING, FOUR_TABLE)
  {
    var m := Image(Assemble(REDEFINING), 0);
    p := Listing(m);
    RedefiningAddsListed(REDEFINING, m);
    RedefiningCheckListed(REDEFINING, m);
    RedefiningTailListed(REDEFINING, m);
    RedefiningAccepted(p);
    RedefiningRepeats(p);
    run := LoopedRun(p);
    KeptByAll(p, run);
  }

  lemma RedefiningRepeats(p: Program)
    requires RedefiningAdds(p)
    ensures JumpTableRepeats.Repeats(p, LOOPING, FOUR_TABLE) && JumpTableRepeats.OpenWords(p, LOOPING, FOUR_TABLE)
  {
    forall a | IsSource(4, a, 0xC) ensures a == 4 || a == 8 { }
  }

  lemma LoopedRun(p: Program) returns (run: seq<Cpu>)
    requires RedefiningHead(p) && RedefiningTail(p)
    ensures GoesWrong(p, Now(0, 4, Four(2, 0, 0, 0)), run)
  {
    run := WrongDispatch(p);
    run := SecondPass(p, run);
    run := FirstPass(p, run);
  }
}
