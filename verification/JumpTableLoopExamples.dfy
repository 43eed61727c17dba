/** A switch whose case loops back to the bounds check: sound while the case leaves the table register, and not otherwise. */
module JumpTableLoopExamples {
  import opened Prelude
  import opened BitWords
  import opened Sorting
  import opened Mips
  import opened Machine
  import opened JumpTable
  import opened JumpTableSoundness
  import opened JumpTableLoops
  import opened JumpTableExamples
  import JumpTableCases

  const BEQ_4_30 := Fields(0x1080_0009, 4, 4, 0, 0, 0, 9, 9, true, Branch(0x30))
  const LW_5_38 := Fields(0x8CA5_0038, 0x23, 5, 5, 0, 0, 0x38, 0x38, true, Normal)
  const J_4 := Fields(0x0800_0001, 2, 0, 0, 0, 0, 1, 1, true, Jump(4))

  /** `lui $3; sltiu $4,$2,1; beq $4,$0`, the dispatch over one case at 0x24, and the case: one word, then `j` to the check. */
  function CaseWords(word: Word): seq<Word> {
    [0x3C03_0000, 0x2C44_0001, 0x1080_0009, 0, 0x0002_2880, 0x00A3_2821, 0x8CA5_0038, 0x00A0_0008, 0, word,
     0x0800_0001, 0, 0x03E0_0008, 0, 0x24]
  }

  predicate LoopCheck(p: Program) {
    p(0) == Some(LUI_3_0) && p(4) == Some(SLTIU_4_2_1) && p(8) == Some(BEQ_4_30) && p(0xC) == Some(NOP)
  }

  predicate LoopDispatch(p: Program) {
    && p(0x10) == Some(SLL_5_2) && p(0x14) == Some(ADDU_5_5_3) && p(0x18) == Some(LW_5_38) && p(0x1C) == Some(JR_5)
    && p(0x20) == Some(NOP)
  }

  predicate LoopCase(p: Program, i: Insn) {
    && p(0x24) == Some(i) && p(0x28) == Some(J_4) && p(0x2C) == Some(NOP) && p(0x30) == Some(JR_RA) && p(0x34) == Some(NOP)
    && p(0x38) == Some(DATA_24)
  }

  /** The case's own word: a plain valid one. */
  predicate PlainCase(i: Insn) { i.valid && i.flow.Normal? }

  predicate LoopSwitch(p: Program, i: Insn) { LoopCheck(p) && LoopDispatch(p) && LoopCase(p, i) && PlainCase(i) }

  lemma LoopHeadDecodes()
    ensures Decode(0, 0x3C03_0000) == LUI_3_0 && Decode(4, 0x2C44_0001) == SLTIU_4_2_1 && Decode(0xC, 0) == NOP
    ensures Decode(8, 0x1080_0009) == BEQ_4_30
  {
  }

  lemma LoopDispatchDecodes()
    ensures Decode(0x10, 0x0002_2880) == SLL_5_2 && Decode(0x14, 0x00A3_2821) == ADDU_5_5_3 && Decode(0x18, 0x8CA5_0038) == LW_5_38
    ensures Decode(0x1C, 0x00A0_0008) == JR_5 && Decode(0x20, 0) == NOP
  {
  }

  lemma LoopCaseDecodes()
    ensures Decode(0x28, 0x0800_0001) == J_4 && Decode(0x2C, 0) == NOP && Decode(0x30, 0x03E0_0008) == JR_RA
    ensures Decode(0x34, 0) == NOP && Decode(0x38, 0x24) == DATA_24
    ensures Decode(0x24, 0x2463_0004) == ADDIU_3_4 && Decode(0x24, 0) == NOP
  {
  }

  lemma LoopCheckListed(words: seq<Word>, m: Image, word: Word)
    requires words == CaseWords(word) && m == Image(Assemble(words), 0)
    ensures LoopCheck(Listing(m))
  {
    LoopHeadDecodes();
    AssembledInsn(words, m, 0, 0, 0x3C03_0000, LUI_3_0);
    AssembledInsn(words, m, 1, 4, 0x2C44_0001, SLTIU_4_2_1);
    AssembledInsn(words, m, 2, 8, 0x1080_0009, BEQ_4_30);
    AssembledInsn(words, m, 3, 0xC, 0, NOP);
  }

  lemma LoopDispatchListed(words: seq<Word>, m: Image, word: Word)
    requires words == CaseWords(word) && m == Image(Assemble(words), 0)
    ensures LoopDispatch(Listing(m))
  {
    LoopDispatchDecodes();
    AssembledInsn(words, m, 4, 0x10, 0x0002_2880, SLL_5_2);
    AssembledInsn(words, m, 5, 0x14, 0x00A3_2821, ADDU_5_5_3);
    AssembledInsn(words, m, 6, 0x18, 0x8CA5_0038, LW_5_38);
    AssembledInsn(words, m, 7, 0x1C, 0x00A0_0008, JR_5);
    AssembledInsn(words, m, 8, 0x20, 0, NOP);
  }

  lemma LoopCaseListed(words: seq<Word>, m: Image, word: Word, i: Insn)
    requires words == CaseWords(word) && m == Image(Assemble(words), 0) && Decode(0x24, word) == i
    ensures LoopCase(Listing(m), i)
  {
    LoopCaseDecodes();
    AssembledInsn(words, m, 9, 0x24, word, i);
    AssembledInsn(words, m, 10, 0x28, 0x0800_0001, J_4);
    AssembledInsn(words, m, 11, 0x2C, 0, NOP);
    AssembledInsn(words, m, 12, 0x30, 0x03E0_0008, JR_RA);
    AssembledInsn(words, m, 13, 0x34, 0, NOP);
    AssembledInsn(words, m, 14, 0x38, 0x24, DATA_24);
  }

  const LOOPED := Suffix(0x1C, 0x18, 5, 5, 0x38, 5, 2, 3, 4, 1, 0x30)

  lemma LoopMatches(p: Program, i: Insn)
    requires LoopSwitch(p, i)
    ensures MatchSuffix(p, 0, 0x38, 0x1C, 5) == Some(LOOPED)
    ensures TableConstant(p, 0, 3, 0x14) == Some(ZERO_TABLE)
  {
    assert NearestWriter(p, 3, 0, 0) == Some(0);
    assert NearestWriter(p, 3, 4, 0) == Some(0);
    assert NearestWriter(p, 3, 8, 0) == Some(0);
    assert NearestWriter(p, 3, 0xC, 0) == Some(0);
    assert NearestWriter(p, 3, 0x10, 0) == Some(0);
  }

  lemma LoopTable(p: Program, i: Insn)
    requires LoopSwitch(p, i)
    ensures TableFits(p, 0, 0x38, 0, 0x3C, LOOPED, ZERO_TABLE) && TargetsOf(p, LOOPED, ZERO_TABLE) == {0x24}
  {
    forall k: nat | k < 1 ensures EntryFits(p, 0, 0x38, 0, 0x3C, TableWord(p, LOOPED, ZERO_TABLE, k)) {
      assert k == 0;
    }
    assert TableWord(p, LOOPED, ZERO_TABLE, 0) == Some(DATA_24);
  }

  lemma LoopStraight(p: Program, i: Insn)
    requires LoopSwitch(p, i)
    ensures Straight(p, 0, LOOPED, ZERO_TABLE)
  {
    forall pc | IsSource(4, pc, 0x10) ensures p(pc).Some? && (Transfers(p(pc)) ==> pc == 8) {
      assert pc == 4 || pc == 8 || pc == 0xC;
    }
  }

  lemma LoopRecognised(p: Program, i: Insn)
    requires LoopSwitch(p, i)
    ensures Recognise(p, 0, 0x38, 0, 0x3C, 0x1C, 5) == Some((LOOPED, ZERO_TABLE))
  {
    LoopMatches(p, i);
    LoopTable(p, i);
    LoopStraight(p, i);
  }

  lemma {:induction false} CasesGrow(p: Program, w: CaseWindow, reached: set<int>, work: seq<int>)
    ensures reached <= CasesFrom(p, w, reached, work)
    decreases CASE_LIMIT - |reached|, |work|
  {
    if work != [] && |reached| < CASE_LIMIT {
      if !w.Visits(p, reached, work[0]) {
        CasesGrow(p, w, reached, work[1..]);
      } else {
        MarksMore(p, reached, work[0]);
        CasesGrow(p, w, Mark(p, reached, work[0]), work[1..] + CaseSuccessors(p(work[0]).value, work[0]));
      }
    }
  }

  /** The case and its jump are found. */
  lemma LoopCases(p: Program, i: Insn)
    requires LoopSwitch(p, i)
    ensures {0x24, 0x28} <= CasesOf(p, CaseWindow(0, 0x38, 0, 0x3C), {0x24})
  {
    var w := CaseWindow(0, 0x38, 0, 0x3C);
    var work := Sorted({0x24});
    assert work == [0x24] by { assert work[0] in ToSet(work); }
    assert Mark(p, {}, 0x24) == {0x24} && work[1..] + CaseSuccessors(i, 0x24) == [0x28];
    assert CasesFrom(p, w, {}, [0x24]) == CasesFrom(p, w, {0x24}, [0x28]);
    assert w.Visits(p, {0x24}, 0x28);
    CasesGrow(p, w, Mark(p, {0x24}, 0x28), [0x28][1..] + CaseSuccessors(J_4, 0x28));
  }

  function LoopReached(p: Program): set<int> { CasesOf(p, CaseWindow(0, 0x38, 0, 0x3C), {0x24}) }

  lemma OnlyTheCaseEnters(p: Program, i: Insn, reached: set<int>)
    requires LoopSwitch(p, i) && 0x28 in reached
    ensures NoStray(p, 0, 0x38, LOOPED, ZERO_TABLE, reached)
  {
    forall source | IsSource(0, source, 0x38) ensures !StrayAt(p, LOOPED, ZERO_TABLE, reached, source) {
      assert source == 0 || source == 4 || source == 8 || source == 0xC || source == 0x10 || source == 0x14 || source == 0x18
        || source == 0x1C || source == 0x20 || source == 0x24 || source == 0x28 || source == 0x2C || source == 0x30 || source == 0x34;
    }
  }

  lemma LoopHasNoStray(p: Program, i: Insn)
    requires LoopSwitch(p, i)
    ensures NoStray(p, 0, 0x38, LOOPED, ZERO_TABLE, LoopReached(p))
  {
    LoopCases(p, i);
    OnlyTheCaseEnters(p, i, LoopReached(p));
  }

  /** The recogniser accepts the switch whatever the case does. */
  lemma LoopAccepted(p: Program, i: Insn)
    requires LoopSwitch(p, i)
    ensures JumpTargets(p, 0, 0x38, 0, 0x3C, 0x1C, 5) == {0x24}
  {
    LoopRecognised(p, i);
    LoopTable(p, i);
    LoopHasNoStray(p, i);
  }

  // ---- A case that leaves the table register ------------------------------------

  /** The case and its jump hold the table's address; the slots of the `jr` and of the jump are only slots. */
  const CASE_LOOP := Keep({0x24, 0x28, 0x2C}, {0x20}, false, true, true)

  lemma LoopSuffixKept(p: Program, i: Insn)
    requires LoopSwitch(p, i)
    ensures SuffixKept(p, LOOPED, ZERO_TABLE, CASE_LOOP, {0x24})
  {
    forall pc | IsSource(4, pc, 0x24) ensures Leaves(p, pc, 3) {
      assert pc == 4 || pc == 8 || pc == 0xC || pc == 0x10 || pc == 0x14 || pc == 0x18 || pc == 0x1C || pc == 0x20;
    }
  }

  lemma CaseFlowKept(p: Program, i: Insn, reached: set<int>)
    requires LoopSwitch(p, i) && !WritesGpr(i, 3)
    ensures FlowKept(p, LOOPED, ZERO_TABLE, CASE_LOOP, reached, 0x24, i)
    ensures FlowKept(p, LOOPED, ZERO_TABLE, CASE_LOOP, reached, 0x28, J_4)
    ensures FlowKept(p, LOOPED, ZERO_TABLE, CASE_LOOP, reached, 0x2C, NOP)
  {
  }

  lemma RestFlowKept(p: Program, i: Insn, reached: set<int>)
    requires LoopSwitch(p, i)
    ensures FlowKept(p, LOOPED, ZERO_TABLE, CASE_LOOP, reached, 0x30, JR_RA)
    ensures FlowKept(p, LOOPED, ZERO_TABLE, CASE_LOOP, reached, 0x34, NOP)
  {
  }

  lemma LooseAddresses(a: int)
    requires Loose(0, 0x38, LOOPED, ZERO_TABLE, CASE_LOOP, a)
    ensures a == 0x24 || a == 0x28 || a == 0x2C || a == 0x30 || a == 0x34
  {
  }

  lemma LoopLoopsKept(p: Program, i: Insn, reached: set<int>)
    requires LoopSwitch(p, i) && !WritesGpr(i, 3)
    ensures LoopsKept(p, 0, 0x38, LOOPED, ZERO_TABLE, CASE_LOOP, reached)
  {
    CaseFlowKept(p, i, reached);
    RestFlowKept(p, i, reached);
    forall a | Loose(0, 0x38, LOOPED, ZERO_TABLE, CASE_LOOP, a) && p(a).Some?
      ensures FlowKept(p, LOOPED, ZERO_TABLE, CASE_LOOP, reached, a, p(a).value)
    {
      LooseAddresses(a);
    }
  }

  lemma LoopCertified(p: Program, i: Insn)
    requires LoopSwitch(p, i) && !WritesGpr(i, 3)
    ensures Recognise(p, 0, 0x38, 0, 0x3C, 0x1C, 5) == Some((LOOPED, ZERO_TABLE))
    ensures TargetsOf(p, LOOPED, ZERO_TABLE) == {0x24} && NoStray(p, 0, 0x38, LOOPED, ZERO_TABLE, LoopReached(p))
    ensures SuffixKept(p, LOOPED, ZERO_TABLE, CASE_LOOP, {0x24})
    ensures LoopsKept(p, 0, 0x38, LOOPED, ZERO_TABLE, CASE_LOOP, LoopReached(p))
  {
    assert Recognise(p, 0, 0x38, 0, 0x3C, 0x1C, 5) == Some((LOOPED, ZERO_TABLE)) by { LoopRecognised(p, i); }
    assert TargetsOf(p, LOOPED, ZERO_TABLE) == {0x24} by { LoopTable(p, i); }
    assert NoStray(p, 0, 0x38, LOOPED, ZERO_TABLE, LoopReached(p)) by { LoopHasNoStray(p, i); }
    assert SuffixKept(p, LOOPED, ZERO_TABLE, CASE_LOOP, {0x24}) by { LoopSuffixKept(p, i); }
    assert LoopsKept(p, 0, 0x38, LOOPED, ZERO_TABLE, CASE_LOOP, LoopReached(p)) by { LoopLoopsKept(p, i, LoopReached(p)); }
  }

  lemma LoopOutside(p: Program, u: Cpu)
    requires IsCpu(u) && u.pc == 0 && u.npc == 4
    ensures Outside(p, LOOPED, ZERO_TABLE, CASE_LOOP, u) && Guards(LOOPED, ZERO_TABLE)
  {
  }

  lemma LoopedStays(p: Program, reached: set<int>, run: seq<Cpu>)
    requires Recognise(p, 0, 0x38, 0, 0x3C, 0x1C, 5) == Some((LOOPED, ZERO_TABLE))
    requires NoStray(p, 0, 0x38, LOOPED, ZERO_TABLE, reached) && Guards(LOOPED, ZERO_TABLE)
    requires TargetsOf(p, LOOPED, ZERO_TABLE) == {0x24} && SuffixKept(p, LOOPED, ZERO_TABLE, CASE_LOOP, {0x24})
    requires LoopsKept(p, 0, 0x38, LOOPED, ZERO_TABLE, CASE_LOOP, reached)
    requires run != [] && IsRun(p, run) && IsCpu(run[0]) && run[0].pc == 0 && Outside(p, LOOPED, ZERO_TABLE, CASE_LOOP, run[0])
    requires NoStrayEntry(p, 0, 0x38, LOOPED, ZERO_TABLE, CASE_LOOP, run) && TableKept(p, LOOPED, ZERO_TABLE, run)
    ensures run[|run|-1].pc == 0x1C ==> 5 < |run[|run|-1].regs| && run[|run|-1].regs[5] == 0x24
  {
    DispatchStaysInTable(p, 0, 0x38, 0, 0x3C, 0x1C, 5, LOOPED, ZERO_TABLE, reached, CASE_LOOP, run);
  }

  /** A case that does not write the table register may loop to the check as often as it likes. */
  lemma CaseLoopExample(p: Program, i: Insn, run: seq<Cpu>)
    requires LoopSwitch(p, i) && !WritesGpr(i, 3)
    requires run != [] && IsRun(p, run) && IsCpu(run[0]) && run[0].pc == 0 && run[0].npc == 4
    requires NoStrayEntry(p, 0, 0x38, LOOPED, ZERO_TABLE, CASE_LOOP, run) && TableKept(p, LOOPED, ZERO_TABLE, run)
    ensures run[|run|-1].pc == 0x1C ==> 5 < |run[|run|-1].regs| && run[|run|-1].regs[5] == 0x24
  {
    LoopCertified(p, i);
    LoopOutside(p, run[0]);
    LoopedStays(p, LoopReached(p), run);
  }

  // ---- A case that adds to the table register ---------------------------------------

  function CaseTable(a: int): Word { if a == 0x38 then 0x24 else 1 }

  function At(pc: int, npc: int, regs: seq<Word>): Cpu { Cpu(pc, npc, regs, CaseTable) }

  /** A run over the table in memory that ends at the `jr` with a word that is no case. */
  ghost predicate Escapes(p: Program, u: Cpu, run: seq<Cpu>) {
    && run != [] && run[0] == u && IsRun(p, run) && (forall n :: 0 <= n < |run| ==> run[n].mem == CaseTable)
    && run[|run|-1].pc == 0x1C && |run[|run|-1].regs| == 32 && run[|run|-1].regs[5] == 1
  }

  lemma Earlier(p: Program, u: Cpu, d: Cpu, run: seq<Cpu>) returns (longer: seq<Cpu>)
    requires Escapes(p, d, run) && Step(p, u, d) && u.mem == CaseTable
    ensures Escapes(p, u, longer)
  {
    longer := [u] + run;
    forall n | 0 <= n < |longer| - 1 ensures StepAt(p, longer, n) {
      if n > 0 { assert StepAt(p, run, n - 1); }
    }
  }

  /** From the check to the shift, with index 0. */
  lemma CheckPasses(p: Program, r3: Word, r4: Word, r5: Word)
    requires LoopCheck(p)
    ensures Step(p, At(4, 8, Four(0, r3, r4, r5)), At(8, 0xC, Four(0, r3, 1, r5)))
    ensures Step(p, At(8, 0xC, Four(0, r3, 1, r5)), At(0xC, 0x10, Four(0, r3, 1, r5)))
    ensures Step(p, At(0xC, 0x10, Four(0, r3, 1, r5)), At(0x10, 0x14, Four(0, r3, 1, r5)))
  {
    assert Set(Four(0, r3, r4, r5), 4, 1) == Four(0, r3, 1, r5);
  }

  lemma IndexScales(p: Program, r3: Word, r5: Word)
    requires LoopDispatch(p)
    ensures Step(p, At(0x10, 0x14, Four(0, r3, 1, r5)), At(0x14, 0x18, Four(0, r3, 1, 0)))
    ensures Step(p, At(0x14, 0x18, Four(0, r3, 1, 0)), At(0x18, 0x1C, Four(0, r3, 1, r3)))
  {
    assert Pow2(2) == 4;
    assert Set(Four(0, r3, 1, r5), 5, 0) == Four(0, r3, 1, 0);
    assert Set(Four(0, r3, 1, 0), 5, r3) == Four(0, r3, 1, r3);
  }

  lemma WordLoads(p: Program, r3: Word)
    requires LoopDispatch(p) && (r3 == 0 || r3 == 4)
    ensures Step(p, At(0x18, 0x1C, Four(0, r3, 1, r3)), At(0x1C, 0x20, Four(0, r3, 1, if r3 == 0 then 0x24 else 1)))
  {
    assert Set(Four(0, r3, 1, r3), 5, if r3 == 0 then 0x24 else 1) == Four(0, r3, 1, if r3 == 0 then 0x24 else 1);
  }

  /** From the check to the `jr`, in front of what happens there. */
  lemma Passes(p: Program, r3: Word, r4: Word, r5: Word, end: seq<Cpu>) returns (run: seq<Cpu>)
    requires LoopCheck(p) && LoopDispatch(p) && (r3 == 0 || r3 == 4)
    requires Escapes(p, At(0x1C, 0x20, Four(0, r3, 1, if r3 == 0 then 0x24 else 1)), end)
    ensures Escapes(p, At(4, 8, Four(0, r3, r4, r5)), run)
  {
    WordLoads(p, r3);
    run := Earlier(p, At(0x18, 0x1C, Four(0, r3, 1, r3)), At(0x1C, 0x20, Four(0, r3, 1, if r3 == 0 then 0x24 else 1)), end);
    IndexScales(p, r3, r5);
    run := Earlier(p, At(0x14, 0x18, Four(0, r3, 1, 0)), At(0x18, 0x1C, Four(0, r3, 1, r3)), run);
    run := Earlier(p, At(0x10, 0x14, Four(0, r3, 1, r5)), At(0x14, 0x18, Four(0, r3, 1, 0)), run);
    CheckPasses(p, r3, r4, r5);
    run := Earlier(p, At(0xC, 0x10, Four(0, r3, 1, r5)), At(0x10, 0x14, Four(0, r3, 1, r5)), run);
    run := Earlier(p, At(8, 0xC, Four(0, r3, 1, r5)), At(0xC, 0x10, Four(0, r3, 1, r5)), run);
    run := Earlier(p, At(4, 8, Four(0, r3, r4, r5)), At(8, 0xC, Four(0, r3, 1, r5)), run);
  }

  lemma CaseDispatches(p: Program)
    requires LoopDispatch(p)
    ensures Step(p, At(0x1C, 0x20, Four(0, 0, 1, 0x24)), At(0x20, 0x24, Four(0, 0, 1, 0x24)))
    ensures Step(p, At(0x20, 0x24, Four(0, 0, 1, 0x24)), At(0x24, 0x28, Four(0, 0, 1, 0x24)))
  {
  }

  lemma CaseAdds(p: Program)
    requires LoopCase(p, ADDIU_3_4)
    ensures Step(p, At(0x24, 0x28, Four(0, 0, 1, 0x24)), At(0x28, 0x2C, Four(0, 4, 1, 0x24)))
  {
    assert Set(Four(0, 0, 1, 0x24), 3, 4) == Four(0, 4, 1, 0x24);
  }

  lemma CaseLoops(p: Program)
    requires LoopCase(p, ADDIU_3_4)
    ensures Step(p, At(0x28, 0x2C, Four(0, 4, 1, 0x24)), At(0x2C, 4, Four(0, 4, 1, 0x24)))
    ensures Step(p, At(0x2C, 4, Four(0, 4, 1, 0x24)), At(4, 8, Four(0, 4, 1, 0x24)))
  {
  }

  lemma LuiStarts(p: Program)
    requires LoopCheck(p)
    ensures Step(p, At(0, 4, Four(0, 0, 0, 0)), At(4, 8, Four(0, 0, 0, 0)))
  {
    assert Set(Four(0, 0, 0, 0), 3, 0) == Four(0, 0, 0, 0);
  }

  lemma EscapingRun(p: Program) returns (run: seq<Cpu>)
    requires LoopSwitch(p, ADDIU_3_4)
    ensures Escapes(p, At(0, 4, Four(0, 0, 0, 0)), run)
  {
    run := Passes(p, 4, 1, 0x24, [At(0x1C, 0x20, Four(0, 4, 1, 1))]);
    CaseLoops(p);
    run := Earlier(p, At(0x2C, 4, Four(0, 4, 1, 0x24)), At(4, 8, Four(0, 4, 1, 0x24)), run);
    run := Earlier(p, At(0x28, 0x2C, Four(0, 4, 1, 0x24)), At(0x2C, 4, Four(0, 4, 1, 0x24)), run);
    CaseAdds(p);
    run := Earlier(p, At(0x24, 0x28, Four(0, 0, 1, 0x24)), At(0x28, 0x2C, Four(0, 4, 1, 0x24)), run);
    CaseDispatches(p);
    run := Earlier(p, At(0x20, 0x24, Four(0, 0, 1, 0x24)), At(0x24, 0x28, Four(0, 0, 1, 0x24)), run);
    run := Earlier(p, At(0x1C, 0x20, Four(0, 0, 1, 0x24)), At(0x20, 0x24, Four(0, 0, 1, 0x24)), run);
    run := Passes(p, 0, 0, 0, run);
    LuiStarts(p);
    run := Earlier(p, At(0, 4, Four(0, 0, 0, 0)), At(4, 8, Four(0, 0, 0, 0)), run);
  }

  /** The recogniser accepts, the check guards, the table stays in memory, and the second dispatch leaves the table. */
  ghost predicate Clobbered(p: Program, run: seq<Cpu>) {
    && JumpTargets(p, 0, 0x38, 0, 0x3C, 0x1C, 5) == {0x24} && Guards(LOOPED, ZERO_TABLE)
    && Recognise(p, 0, 0x38, 0, 0x3C, 0x1C, 5) == Some((LOOPED, ZERO_TABLE)) && LOOPED.reject > LOOPED.jr
    && run != [] && IsRun(p, run) && run[0].pc == ZERO_TABLE.constant && TableKept(p, LOOPED, ZERO_TABLE, run)
    && run[|run|-1].pc == 0x1C && |run[|run|-1].regs| == 32
    && run[|run|-1].regs[5] !in JumpTargets(p, 0, 0x38, 0, 0x3C, 0x1C, 5)
  }

  lemma ClobberedRun(p: Program) returns (run: seq<Cpu>)
    requires LoopSwitch(p, ADDIU_3_4)
    ensures Clobbered(p, run)
  {
    LoopAccepted(p, ADDIU_3_4);
    LoopRecognised(p, ADDIU_3_4);
    run := EscapingRun(p);
    CaseTableKept(p, run);
  }

  /**
   A case that adds 4 to the table register and loops back: the recogniser accepts it although no edge repeats a
   definition, and a run from the `lui` reaches the `jr` a second time with a word that is no case. It is one of the
   loops of which `CaseLoopExactly` speaks.
   */
  lemma CaseClobbersExample() returns (m: Image, run: seq<Cpu>)
    ensures m == Image(Assemble(CaseWords(0x2463_0004)), 0) && Clobbered(Listing(m), run)
    ensures JumpTableCases.CaseLoops(Listing(m), LOOPED, ZERO_TABLE, CASE_AT_24)
    ensures JumpTableCases.Telling(Listing(m), LOOPED, CASE_AT_24)
  {
    m := Image(Assemble(CaseWords(0x2463_0004)), 0);
    AddingCaseListed(CaseWords(0x2463_0004), m);
    run := ClobberedRun(Listing(m));
    ClobberingLoop(Listing(m));
  }

  const CASE_AT_24 := JumpTableCases.Loop(0, 0x24, 0x28, 4)

  lemma ClobberingLoop(p: Program)
    requires LoopSwitch(p, ADDIU_3_4)
    ensures JumpTableCases.CaseLoops(p, LOOPED, ZERO_TABLE, CASE_AT_24) && JumpTableCases.Telling(p, LOOPED, CASE_AT_24)
  {
    assert TableWord(p, LOOPED, ZERO_TABLE, 0) == Some(DATA_24);
    forall a | IsSource(0x24, a, 0x28) ensures a == 0x24 { }
    forall a | IsSource(4, a, LOOPED.Sltiu()) ensures false { }
  }

  lemma AddingCaseListed(words: seq<Word>, m: Image)
    requires words == CaseWords(0x2463_0004) && m == Image(Assemble(words), 0)
    ensures LoopSwitch(Listing(m), ADDIU_3_4)
  {
    LoopCheckListed(words, m, 0x2463_0004);
    LoopDispatchListed(words, m, 0x2463_0004);
    assert Decode(0x24, 0x2463_0004) == ADDIU_3_4 by { LoopCaseDecodes(); }
    LoopCaseListed(words, m, 0x2463_0004, ADDIU_3_4);
  }

  lemma CaseTableKept(p: Program, run: seq<Cpu>)
    requires p(0x38) == Some(DATA_24) && forall n :: 0 <= n < |run| ==> run[n].mem == CaseTable
    ensures TableKept(p, LOOPED, ZERO_TABLE, run)
  {
    assert TableWord(p, LOOPED, ZERO_TABLE, 0) == Some(DATA_24);
  }
}
