/**
 A rejected edge that repeats the definition of the table register: exactly when that is harmless, for switches whose
 repeated words, the definition apart, step the index or have none of the exact semantics.
 */
module JumpTableRepeats {
  import opened Prelude
  import opened BitWords
  import opened Mips
  import opened Machine
  import opened JumpTable
  import opened JumpTableSoundness
  import opened JumpTableExactness
  import opened RegisterSums

  /** The model leaves open what the word does to the registers it writes; or it is no operation at all. */
  predicate Open(i: Insn) {
    IsNop(Some(i)) || !Matched(i)
  }

  /** The repeated words are open or `addiu index, index, imm`. */
  ghost predicate OpenWords(p: Program, s: Suffix, c: Constant) {
    forall a :: IsSource(s.reject, a, s.Sltiu()) && a != c.define ==>
      p(a).Some? && (Open(p(a).value) || AddsTo(p(a).value, s.index))
  }

  /** The rejected edge lands behind the `lui` and not behind the definition, and the registers are told apart. */
  ghost predicate Repeats(p: Program, s: Suffix, c: Constant) {
    && c.constant < s.reject <= c.define && s.reject % 4 == 0
    && s.guard != s.index && s.guard != c.up && s.index != s.table && s.index != c.up
  }

  /** What the definition adds. */
  function Low(p: Program, c: Constant): int { if p(c.define).None? then 0 else Signed(p(c.define).value) }

  /** The definition gives the same address again. */
  ghost predicate TableStays(p: Program, s: Suffix, c: Constant) {
    if c.up == s.table then Low(p, c) == 0 else LeavesAll(p, c.define + 4, s.Sltiu(), c.up)
  }

  /** An index that was rejected is rejected again. */
  ghost predicate IndexStays(p: Program, s: Suffix) { Restores(p, s.reject, s.Sltiu(), s.index) }

  /** An execution of the check, any number of rejected passes, and the dispatch. */
  ghost predicate RepeatRun(p: Program, s: Suffix, c: Constant, run: seq<Cpu>) {
    && run != [] && IsRun(p, run) && IsCpu(run[0]) && TableKept(p, s, c, run)
    && run[0].pc == s.Sltiu() && run[0].npc == s.Beq() && run[0].regs[s.table] == c.value
    && (c.up != s.table ==> run[0].regs[c.up] == c.upper) && run[|run|-1].pc == s.jr
    && forall i :: 0 <= i < |run| - 1 ==> s.reject <= run[i].pc < s.jr
  }

  ghost predicate RepeatSound(p: Program, s: Suffix, c: Constant) {
    forall run :: RepeatRun(p, s, c, run) ==> JumpTableExactness.Lands(p, s, c, run[|run|-1])
  }

  // ---- When it is harmless ---------------------------------------------------------

  /** Everything the two proofs use of an accepted switch. */
  ghost predicate Repeating(p: Program, entry: int, s: Suffix, c: Constant) {
    && Accepted(p, entry, s, c) && Repeats(p, s, c) && s.Sltiu() - s.reject <= 4 * 63
    && s.jr % 4 == 0 && s.lw % 4 == 0 && c.constant % 4 == 0 && c.define % 4 == 0
  }

  /** The table's address is in place, and the upper half when the definition starts from it. */
  predicate InPlace(p: Program, s: Suffix, c: Constant, t: set<int>, u: Cpu)
    requires IsCpu(u)
  {
    Facts(p, s, c, t, u) && (c.up != s.table && u.pc <= s.Nop() ==> u.regs[c.up] == c.upper)
  }

  lemma CheckLeaves(p: Program, s: Suffix, reg: int, a: int)
    requires Shape(p, s) && s.guard != reg && (a == s.Sltiu() || a == s.Beq() || a == s.Nop())
    ensures Leaves(p, a, reg)
  {
  }

  lemma DefineLeaves(p: Program, s: Suffix, c: Constant)
    requires Defined(p, s, c) && c.constant < c.define && c.up != s.table
    ensures Leaves(p, c.define, c.up)
  {
  }

  lemma UpperLeft(p: Program, s: Suffix, c: Constant, a: int)
    requires LeavesAll(p, c.constant + 4, c.define, c.up) && LeavesAll(p, c.define + 4, s.Sltiu(), c.up)
    requires Leaves(p, c.define, c.up) && Leaves(p, s.Sltiu(), c.up) && Leaves(p, s.Beq(), c.up) && Leaves(p, s.Nop(), c.up)
    requires c.constant % 4 == 0 && c.define % 4 == 0 && s.lw % 4 == 0 && a % 4 == 0 && c.constant < a <= s.Nop()
    ensures Leaves(p, a, c.up)
  {
    if a < c.define {
      LeftAt(p, c.constant + 4, c.define, c.up, a);
    } else if c.define < a < s.Sltiu() {
      LeftAt(p, c.define + 4, s.Sltiu(), c.up, a);
    }
  }

  lemma UpperStays(p: Program, entry: int, s: Suffix, c: Constant, u: Cpu, d: Cpu)
    requires Repeating(p, entry, s, c) && c.up != s.table && TableStays(p, s, c)
    requires Step(p, u, d) && c.constant < u.pc <= s.Nop() && u.regs[c.up] == c.upper
    ensures d.regs[c.up] == c.upper
  {
    DefineLeaves(p, s, c);
    CheckLeaves(p, s, c.up, s.Sltiu());
    CheckLeaves(p, s, c.up, s.Beq());
    CheckLeaves(p, s, c.up, s.Nop());
    UpperLeft(p, s, c, u.pc);
    FrameRule(p(u.pc).value, u, d, c.up);
  }

  lemma SameAgain(p: Program, s: Suffix, c: Constant)
    requires Defined(p, s, c) && c.up == s.table && Low(p, c) == 0
    ensures c.value == c.upper
  {
  }

  lemma RejectedAgain(p: Program, entry: int, s: Suffix, c: Constant, t: set<int>, u: Cpu, d: Cpu)
    requires Repeating(p, entry, s, c) && TableStays(p, s, c)
    requires Step(p, u, d) && u.pc == s.Nop() && d.pc == s.reject && InPlace(p, s, c, t, u)
    ensures InPlace(p, s, c, t, d)
  {
    NopLeaves(p(u.pc).value, u, d);
    if c.up == s.table { SameAgain(p, s, c); }
  }

  lemma InPlaceStep(p: Program, entry: int, s: Suffix, c: Constant, u: Cpu, d: Cpu)
    requires Repeating(p, entry, s, c) && TableStays(p, s, c) && Step(p, u, d)
    requires c.constant < u.pc < s.jr && InPlace(p, s, c, TargetsOf(p, s, c), u) && (u.pc == s.lw ==> Intact(p, s, c, u))
    ensures InPlace(p, s, c, TargetsOf(p, s, c), d)
  {
    var t := TargetsOf(p, s, c);
    if c.up != s.table && u.pc <= s.Nop() { UpperStays(p, entry, s, c, u, d); }
    if u.pc < s.Sltiu() {
      assert d.pc == u.pc + 4 <= s.Sltiu() && d.npc == d.pc + 4 && Carries(s, c, d) by { PrefixStep(p, entry, s, c, t, u, d); }
    } else {
      assert d.pc == u.pc + 4 || (u.pc == s.Nop() && d.pc == s.reject) by { CoreNext(p, s, c, u, d); }
      if d.pc == u.pc + 4 {
        NextBelow(u.pc, s.jr);
        CoreStep(p, entry, s, c, u, d);
      } else {
        RejectedAgain(p, entry, s, c, t, u, d);
      }
    }
  }

  lemma {:induction false} InPlaceKept(p: Program, entry: int, s: Suffix, c: Constant, run: seq<Cpu>, n: nat)
    requires Repeating(p, entry, s, c) && TableStays(p, s, c) && RepeatRun(p, s, c, run) && n < |run|
    ensures IsCpu(run[n]) && InPlace(p, s, c, TargetsOf(p, s, c), run[n])
    decreases n
  {
    if n > 0 {
      InPlaceKept(p, entry, s, c, run, n - 1);
      assert StepAt(p, run, n - 1);
      InPlaceStep(p, entry, s, c, run[n-1], run[n]);
    }
  }

  // ---- When it never gets to the dispatch ------------------------------------------

  /** The index at the check, with what the words before it will still add. */
  function IndexThere(p: Program, s: Suffix, u: Cpu): Word
    requires IsCpu(u)
  {
    Wrap(u.regs[s.index] + Sum(p, s.index, u.pc, s.Sltiu()))
  }

  /** In a pass whose index has been rejected once. */
  predicate Stuck(p: Program, s: Suffix, u: Cpu)
    requires IsCpu(u)
  {
    && s.reject <= u.pc <= s.Nop() && IndexThere(p, s, u) >= s.count && (u.pc == s.Beq() ==> u.regs[s.guard] == 0)
    && u.npc == if u.pc == s.Nop() then s.reject else u.pc + 4
  }

  /** The first check: what is not indexed is rejected. */
  predicate FirstPass(p: Program, s: Suffix, c: Constant, t: set<int>, u: Cpu)
    requires IsCpu(u)
  {
    && s.Sltiu() <= u.pc && Facts(p, s, c, t, u)
    && (u.pc == s.Beq() && u.regs[s.guard] == 0 ==> u.regs[s.index] >= s.count)
    && (u.pc == s.Nop() && u.npc == s.reject ==> u.regs[s.index] >= s.count)
  }

  lemma OnePassOn(p: Program, s: Suffix, u: Cpu, d: Cpu)
    requires IsCpu(u) && IsCpu(d) && Stuck(p, s, u) && u.pc < s.Sltiu() && s.jr % 4 == 0 && (s.jr == s.lw + 4 || s.jr == s.lw + 8)
    requires d.pc == u.npc && d.npc == u.npc + 4 && IndexThere(p, s, d) == IndexThere(p, s, u)
    ensures Stuck(p, s, d)
  {
    NextBelow(u.pc, s.Sltiu());
  }

  lemma SequenceOn(p: Program, entry: int, s: Suffix, c: Constant, u: Cpu, d: Cpu)
    requires Repeating(p, entry, s, c) && Step(p, u, d) && s.reject <= u.pc < s.Sltiu()
    ensures p(u.pc).Some? && d.pc == u.npc && d.npc == u.npc + 4 && Computes(p(u.pc).value, u, d)
  {
    Spaced(s, c, u.pc);
    InSequence(p, entry, s, c, u, d);
  }

  lemma IndexOn(p: Program, s: Suffix, u: Cpu, d: Cpu)
    requires OnlyAdds(p, s.reject, s.Sltiu(), s.index) && s.reject % 4 == 0 && s.reject <= u.pc < s.Sltiu() && s.index != 0
    requires IsCpu(u) && IsCpu(d) && p(u.pc).Some? && Computes(p(u.pc).value, u, d) && d.pc == u.pc + 4
    ensures IndexThere(p, s, d) == IndexThere(p, s, u)
  {
    SourceAt(s.reject, u.pc, s.Sltiu());
    assert OnlyAddsAt(p, u.pc, s.index);
    SumKept(p, s.index, u.pc, s.Sltiu(), u, d);
  }

  lemma StuckPrefix(p: Program, entry: int, s: Suffix, c: Constant, u: Cpu, d: Cpu)
    requires Repeating(p, entry, s, c) && IndexStays(p, s) && Step(p, u, d) && Stuck(p, s, u) && u.pc < s.Sltiu()
    ensures Stuck(p, s, d)
  {
    SequenceOn(p, entry, s, c, u, d);
    IndexOn(p, s, u, d);
    OnePassOn(p, s, u, d);
  }

  /** At the check nothing is still to be added, and behind the rejected edge nothing on the whole. */
  lemma ThereIsHere(p: Program, s: Suffix, u: Cpu)
    requires IsCpu(u) && (u.pc >= s.Sltiu() || (u.pc == s.reject && IndexStays(p, s)))
    ensures IndexThere(p, s, u) == u.regs[s.index]
  {
    WrapMoves(u.regs[s.index], Sum(p, s.index, u.pc, s.Sltiu()));
  }

  lemma StuckCheck(p: Program, s: Suffix, u: Cpu, d: Cpu)
    requires Shape(p, s) && s.guard != s.index && Step(p, u, d) && Stuck(p, s, u) && s.reject < s.Sltiu() && IndexStays(p, s)
    requires u.pc == s.Sltiu() || u.pc == s.Beq() || u.pc == s.Nop()
    ensures Stuck(p, s, d)
  {
    ThereIsHere(p, s, u);
    ThereIsHere(p, s, d);
    FrameRule(p(u.pc).value, u, d, s.index);
    if u.pc == s.Nop() { NopLeaves(p(u.pc).value, u, d); }
    if u.pc == s.Beq() { FrameRule(p(u.pc).value, u, d, s.guard); }
  }

  lemma StuckStep(p: Program, entry: int, s: Suffix, c: Constant, u: Cpu, d: Cpu)
    requires Repeating(p, entry, s, c) && IndexStays(p, s) && Step(p, u, d) && Stuck(p, s, u)
    ensures Stuck(p, s, d)
  {
    if u.pc < s.Sltiu() {
      StuckPrefix(p, entry, s, c, u, d);
    } else {
      CorePlaces(s, u.pc);
      StuckCheck(p, s, u, d);
    }
  }

  lemma FirstCheck(p: Program, s: Suffix, c: Constant, t: set<int>, u: Cpu, d: Cpu)
    requires Shape(p, s) && s.guard != s.index && Step(p, u, d) && d.pc == u.pc + 4 && c.define < s.Sltiu()
    requires FirstPass(p, s, c, t, u) && Facts(p, s, c, t, d)
    ensures FirstPass(p, s, c, t, d)
  {
    if u.pc == s.Beq() || u.pc == s.Sltiu() {
      FrameRule(p(u.pc).value, u, d, s.index);
      if u.pc == s.Beq() { FrameRule(p(u.pc).value, u, d, s.guard); }
    }
  }

  lemma FirstPassStep(p: Program, entry: int, s: Suffix, c: Constant, u: Cpu, d: Cpu)
    requires Repeating(p, entry, s, c) && IndexStays(p, s) && Step(p, u, d) && u.pc < s.jr
    requires FirstPass(p, s, c, TargetsOf(p, s, c), u) && (u.pc == s.lw ==> Intact(p, s, c, u))
    ensures FirstPass(p, s, c, TargetsOf(p, s, c), d) || Stuck(p, s, d)
  {
    assert d.pc == u.pc + 4 || (u.pc == s.Nop() && d.pc == s.reject) by { CoreNext(p, s, c, u, d); }
    if d.pc == u.pc + 4 {
      NextBelow(u.pc, s.jr);
      assert Facts(p, s, c, TargetsOf(p, s, c), d) by { CoreStep(p, entry, s, c, u, d); }
      FirstCheck(p, s, c, TargetsOf(p, s, c), u, d);
    } else {
      NopLeaves(p(u.pc).value, u, d);
      ThereIsHere(p, s, d);
    }
  }

  lemma {:induction false} FirstPassKept(p: Program, entry: int, s: Suffix, c: Constant, run: seq<Cpu>, n: nat)
    requires Repeating(p, entry, s, c) && IndexStays(p, s) && RepeatRun(p, s, c, run) && n < |run|
    ensures IsCpu(run[n]) && (FirstPass(p, s, c, TargetsOf(p, s, c), run[n]) || Stuck(p, s, run[n]))
    decreases n
  {
    if n > 0 {
      FirstPassKept(p, entry, s, c, run, n - 1);
      assert StepAt(p, run, n - 1);
      if Stuck(p, s, run[n-1]) {
        StuckStep(p, entry, s, c, run[n-1], run[n]);
      } else {
        FirstPassStep(p, entry, s, c, run[n-1], run[n]);
      }
    }
  }

  lemma HarmlessIsSound(p: Program, entry: int, s: Suffix, c: Constant)
    requires Repeating(p, entry, s, c) && (TableStays(p, s, c) || IndexStays(p, s))
    ensures RepeatSound(p, s, c)
  {
    forall run | RepeatRun(p, s, c, run) ensures JumpTableExactness.Lands(p, s, c, run[|run|-1]) {
      if TableStays(p, s, c) {
        InPlaceKept(p, entry, s, c, run, |run| - 1);
      } else {
        FirstPassKept(p, entry, s, c, run, |run| - 1);
      }
    }
  }

  // ---- Executions that break the others --------------------------------------------

  /** A run that stays behind the rejected edge's target and ends at the `jr` with the odd word. */
  ghost predicate Ruins(p: Program, s: Suffix, c: Constant, run: seq<Cpu>, u: Cpu) {
    && run != [] && run[0] == u && IsRun(p, run) && run[|run|-1].pc == s.jr && |run[|run|-1].regs| == 32
    && run[|run|-1].regs[s.reg] == 1
    && (forall i :: 0 <= i < |run| ==> run[i].mem == Hostile(p, s, c))
    && forall i :: 0 <= i < |run| - 1 ==> s.reject <= run[i].pc < s.jr
  }

  lemma Before(p: Program, s: Suffix, c: Constant, u: Cpu, d: Cpu, run: seq<Cpu>) returns (longer: seq<Cpu>)
    requires Ruins(p, s, c, run, d) && Step(p, u, d) && u.mem == Hostile(p, s, c) && s.reject <= u.pc < s.jr
    ensures Ruins(p, s, c, longer, u)
  {
    longer := [u] + run;
    forall i | 0 <= i < |longer| - 1 ensures StepAt(p, longer, i) {
      if i > 0 { assert StepAt(p, run, i - 1); }
    }
  }

  predicate IsFile(regs: seq<Word>) { |regs| == 32 && regs[0] == 0 }

  /** An open word that writes the one register leaves `x` there, and `b` in the other. */
  function Overwritten(i: Insn, index: Reg, x: Word, other: Reg, b: Word, regs: seq<Word>): seq<Word>
    requires |regs| == 32
  {
    var indexed := if WritesGpr(i, index) then Set(regs, index, x) else regs;
    if WritesGpr(i, other) then Set(indexed, other, b) else indexed
  }

  /**
   One repeated word: the definition adds, so does a step of the index, an open word that writes the index makes it `x`
   at the check, and one that writes the upper half leaves `b`.
   */
  function After(p: Program, s: Suffix, c: Constant, a: int, regs: seq<Word>, x: Word, b: Word): seq<Word>
    requires |regs| == 32
  {
    if a == c.define then Set(regs, s.table, Wrap((regs[c.up] as int) + Low(p, c)))
    else if p(a).None? then regs
    else if AddsTo(p(a).value, s.index) then Set(regs, s.index, Wrap((regs[s.index] as int) + Signed(p(a).value)))
    else Overwritten(p(a).value, s.index, Wrap(x - Sum(p, s.index, a + 4, s.Sltiu())), c.up, b, regs)
  }

  lemma DefinitionAdds(p: Program, s: Suffix, c: Constant, i: Insn, regs: seq<Word>)
    requires p(c.define) == Some(i) && IsAddiu(i) && i.rt == s.table && i.rs == c.up && c.define % 4 == 0 && IsFile(regs)
    ensures Step(p, Line(p, s, c, c.define, regs), Line(p, s, c, c.define + 4, Set(regs, s.table, Wrap((regs[c.up] as int) + Signed(i)))))
  {
  }

  lemma StepAdds(p: Program, s: Suffix, c: Constant, a: int, i: Insn, regs: seq<Word>)
    requires p(a) == Some(i) && AddsTo(i, s.index) && i.flow.Normal? && a % 4 == 0 && IsFile(regs)
    ensures Step(p, Line(p, s, c, a, regs), Line(p, s, c, a + 4, Set(regs, s.index, Wrap((regs[s.index] as int) + Signed(i)))))
  {
  }

  lemma OpenEffect(i: Insn, u: Cpu)
    requires IsCpu(u) && Open(i) && !IsNop(Some(i))
    ensures Effect(i, u).None?
  {
  }

  lemma OpenComputes(i: Insn, u: Cpu, d: Cpu, index: Reg, x: Word, other: Reg, b: Word)
    requires IsCpu(u) && IsCpu(d) && Open(i) && index != 0 && other != 0 && d.mem == u.mem
    requires d.regs == Overwritten(i, index, x, other, b, u.regs)
    ensures Computes(i, u, d)
  {
    if !IsNop(Some(i)) { OpenEffect(i, u); }
  }

  lemma SourceAt(from: int, a: int, to: int)
    requires from % 4 == 0 && a % 4 == 0 && from <= a < to
    ensures IsSource(from, a, to)
  {
  }

  lemma OpenAt(p: Program, entry: int, s: Suffix, c: Constant, a: int)
    requires OpenWords(p, s, c) && Straight(p, entry, s, c) && c.constant < s.reject && s.reject % 4 == 0 && c.constant % 4 == 0
    requires s.reject <= a < s.Sltiu() && a % 4 == 0 && a != c.define
    ensures p(a).Some? && p(a).value.flow.Normal? && (Open(p(a).value) || AddsTo(p(a).value, s.index))
  {
    SourceAt(s.reject, a, s.Sltiu());
    NextBelow(c.constant, a);
    SourceAt(c.constant + 4, a, s.Sll());
  }

  lemma OpenStep(p: Program, s: Suffix, c: Constant, a: int, i: Insn, regs: seq<Word>, index: Reg, x: Word, other: Reg, b: Word)
    requires p(a) == Some(i) && i.flow.Normal? && Open(i) && index != 0 && other != 0 && IsFile(regs) && a % 4 == 0
    ensures Step(p, Line(p, s, c, a, regs), Line(p, s, c, a + 4, Overwritten(i, index, x, other, b, regs)))
  {
    var u, d := Line(p, s, c, a, regs), Line(p, s, c, a + 4, Overwritten(i, index, x, other, b, regs));
    assert IsCpu(u) && IsCpu(d);
    OpenComputes(i, u, d, index, x, other, b);
  }

  lemma RepeatedStep(p: Program, entry: int, s: Suffix, c: Constant, a: int, regs: seq<Word>, x: Word, b: Word)
    requires Repeating(p, entry, s, c) && OpenWords(p, s, c) && IsFile(regs) && s.reject <= a < s.Sltiu() && a % 4 == 0
    ensures Step(p, Line(p, s, c, a, regs), Line(p, s, c, a + 4, After(p, s, c, a, regs, x, b)))
  {
    if a == c.define {
      DefinitionAdds(p, s, c, p(a).value, regs);
    } else {
      OpenAt(p, entry, s, c, a);
      if AddsTo(p(a).value, s.index) {
        StepAdds(p, s, c, a, p(a).value, regs);
      } else {
        OpenStep(p, s, c, a, p(a).value, regs, s.index, Wrap(x - Sum(p, s.index, a + 4, s.Sltiu())), c.up, b);
      }
    }
  }

  /** What the word at an address does to the registers. */
  type Change = (int, seq<Word>) -> seq<Word>

  function ChangeOf(p: Program, s: Suffix, c: Constant, x: Word, b: Word): Change {
    (a: int, regs: seq<Word>) => if |regs| == 32 then After(p, s, c, a, regs, x, b) else regs
  }

  /** Every repeated word may do it. */
  ghost predicate MayChange(p: Program, s: Suffix, c: Constant, f: Change) {
    forall a, regs :: s.reject <= a < s.Sltiu() && a % 4 == 0 && IsFile(regs) ==> MayChangeAt(p, s, c, f, a, regs)
  }

  ghost predicate MayChangeAt(p: Program, s: Suffix, c: Constant, f: Change, a: int, regs: seq<Word>) {
    IsFile(f(a, regs)) && Step(p, Line(p, s, c, a, regs), Line(p, s, c, a + 4, f(a, regs)))
  }

  lemma AfterMayHappen(p: Program, entry: int, s: Suffix, c: Constant, x: Word, b: Word)
    requires Repeating(p, entry, s, c) && OpenWords(p, s, c)
    ensures MayChange(p, s, c, ChangeOf(p, s, c, x, b))
  {
    var f := ChangeOf(p, s, c, x, b);
    forall a: int, regs: seq<Word> | s.reject <= a < s.Sltiu() && a % 4 == 0 && IsFile(regs) ensures MayChangeAt(p, s, c, f, a, regs) {
      RepeatedStep(p, entry, s, c, a, regs, x, b);
    }
  }

  /** The registers at the check, after the words from `a` on. */
  function Through(f: Change, a: int, to: int, regs: seq<Word>): seq<Word>
    decreases to - a
  {
    if a >= to then regs else Through(f, a + 4, to, f(a, regs))
  }

  lemma {:induction false} PassRuins(p: Program, s: Suffix, c: Constant, f: Change, a: int, regs: seq<Word>, tail: seq<Cpu>)
    returns (run: seq<Cpu>)
    requires MayChange(p, s, c, f) && IsFile(regs) && s.reject <= a <= s.Sltiu() && a % 4 == 0 && s.lw % 4 == 0 && s.Sltiu() < s.jr
    requires Ruins(p, s, c, tail, Line(p, s, c, s.Sltiu(), Through(f, a, s.Sltiu(), regs)))
    ensures Ruins(p, s, c, run, Line(p, s, c, a, regs))
    decreases s.Sltiu() - a
  {
    if a == s.Sltiu() {
      run := tail;
    } else {
      assert a + 4 <= s.Sltiu() by { NextBelow(a, s.Sltiu()); }
      assert MayChangeAt(p, s, c, f, a, regs);
      run := PassRuins(p, s, c, f, a + 4, f(a, regs), tail);
      run := Before(p, s, c, Line(p, s, c, a, regs), Line(p, s, c, a + 4, f(a, regs)), run);
    }
  }

  // ---- What a pass leaves in the registers ---------------------------------------------

  /** The repeated words: the definition in the middle, the rest writing neither half of the constant too early or too late. */
  ghost predicate Words(p: Program, s: Suffix, c: Constant) {
    && s.reject <= c.define < s.Sltiu() && s.reject % 4 == 0 && c.define % 4 == 0 && s.lw % 4 == 0
    && s.index != 0 && s.table != 0 && c.up != 0 && s.index != s.table && s.index != c.up
    && (forall a :: IsSource(s.reject, a, s.Sltiu()) ==> p(a).Some?) && !WritesGpr(p(c.define).value, s.index)
    && LeavesAll(p, s.reject, c.define, c.up) && LeavesAll(p, c.define + 4, s.Sltiu(), s.table)
  }

  lemma LaterSource(from: int, mid: int, a: int, to: int)
    requires from % 4 == 0 && mid % 4 == 0 && from <= mid && IsSource(mid, a, to)
    ensures IsSource(from, a, to)
  {
    var k := mid / 4 - from / 4 + (a - mid) / 4;
    assert a - from == 4 * k;
    assert 4 * k % 4 == 0;
  }

  lemma LaterLeaves(p: Program, from: int, mid: int, to: int, reg: int)
    requires LeavesAll(p, from, to, reg) && from <= mid && from % 4 == 0 && mid % 4 == 0
    ensures LeavesAll(p, mid, to, reg)
  {
    forall a | IsSource(mid, a, to) ensures Leaves(p, a, reg) { LaterSource(from, mid, a, to); }
  }

  lemma EarlierLeaves(p: Program, from: int, mid: int, to: int, reg: int)
    requires LeavesAll(p, from, to, reg) && mid <= to
    ensures LeavesAll(p, from, mid, reg)
  {
    forall a | IsSource(from, a, mid) ensures Leaves(p, a, reg) { assert IsSource(from, a, to); }
  }

  lemma ListedWords(p: Program, s: Suffix, c: Constant)
    requires OpenWords(p, s, c) && p(c.define).Some?
    ensures forall a :: IsSource(s.reject, a, s.Sltiu()) ==> p(a).Some?
  {
  }

  lemma RepeatedDefinition(p: Program, s: Suffix, c: Constant)
    requires Defined(p, s, c) && c.constant < s.reject <= c.define && s.index != s.table
    ensures s.reject <= c.define < s.Sltiu() && p(c.define).Some? && !WritesGpr(p(c.define).value, s.index) && c.up != 0
  {
  }

  lemma LaterWords(p: Program, s: Suffix, c: Constant)
    requires Defined(p, s, c) && c.constant < s.reject && s.reject % 4 == 0 && c.constant % 4 == 0
    ensures LeavesAll(p, s.reject, c.define, c.up) && LeavesAll(p, c.define + 4, s.Sltiu(), s.table)
  {
    NextBelow(c.constant, s.reject);
    LaterLeaves(p, c.constant + 4, s.reject, c.define, c.up);
    EarlierLeaves(p, c.define + 4, s.Sltiu(), s.Addu(), s.table);
  }

  lemma RepeatedWords(p: Program, entry: int, s: Suffix, c: Constant)
    requires Repeating(p, entry, s, c) && OpenWords(p, s, c)
    ensures Words(p, s, c)
  {
    RepeatedDefinition(p, s, c);
    ListedWords(p, s, c);
    LaterWords(p, s, c);
  }

  /** What the word does to the index. */
  lemma AfterIndex(p: Program, s: Suffix, c: Constant, a: int, regs: seq<Word>, x: Word, b: Word)
    requires Words(p, s, c) && IsFile(regs) && IsSource(s.reject, a, s.Sltiu())
    ensures var r, rest := After(p, s, c, a, regs, x, b), Sum(p, s.index, a + 4, s.Sltiu());
      && IsFile(r)
      && r[s.index] == if OnlyAddsAt(p, a, s.index) then Wrap(regs[s.index] + Adds(p, a, s.index)) else Wrap(x - rest)
  {
  }

  lemma AfterUpper(p: Program, s: Suffix, c: Constant, a: int, regs: seq<Word>, x: Word, b: Word)
    requires Words(p, s, c) && IsFile(regs) && IsSource(s.reject, a, s.Sltiu()) && c.up != s.table
    ensures var r := After(p, s, c, a, regs, x, b);
      && r[c.up] == (if a > c.define && !Leaves(p, a, c.up) then b else regs[c.up])
      && (a == c.define ==> r[s.table] == Wrap((regs[c.up] as int) + Low(p, c))) && (a > c.define ==> r[s.table] == regs[s.table])
  {
    if a < c.define { assert IsSource(s.reject, a, c.define); }
  }

  lemma AfterTable(p: Program, s: Suffix, c: Constant, a: int, regs: seq<Word>, x: Word, b: Word)
    requires Words(p, s, c) && IsFile(regs) && IsSource(s.reject, a, s.Sltiu()) && c.up == s.table
    ensures var r := After(p, s, c, a, regs, x, b);
      r[s.table] == if a == c.define then Wrap((regs[s.table] as int) + Low(p, c)) else regs[s.table]
  {
    if a < c.define {
      assert IsSource(s.reject, a, c.define);
    } else if a > c.define {
      SourceAt(c.define + 4, a, s.Sltiu());
    }
  }

  lemma LeavesFrom(p: Program, a: int, to: int, reg: int)
    requires a < to && Leaves(p, a, reg) && LeavesAll(p, a + 4, to, reg)
    ensures LeavesAll(p, a, to, reg)
  {
    forall q | IsSource(a, q, to) ensures Leaves(p, q, reg) {
      if q != a { assert IsSource(a + 4, q, to); }
    }
  }

  /** The index at the next check. */
  ghost function PassedIndex(p: Program, s: Suffix, a: int, i: Word, x: Word): Word {
    if OnlyAdds(p, a, s.Sltiu(), s.index) then Wrap(i + Sum(p, s.index, a, s.Sltiu())) else x
  }

  lemma PassedStep(p: Program, s: Suffix, a: int, i: Word, j: Word, x: Word)
    requires a < s.Sltiu() && p(a).Some?
    requires var rest := Sum(p, s.index, a + 4, s.Sltiu());
      j == if OnlyAddsAt(p, a, s.index) then Wrap(i + Adds(p, a, s.index)) else Wrap(x - rest)
    ensures PassedIndex(p, s, a + 4, j, x) == PassedIndex(p, s, a, i, x)
  {
    var rest := Sum(p, s.index, a + 4, s.Sltiu());
    if OnlyAdds(p, a, s.Sltiu(), s.index) {
      assert IsSource(a, a, s.Sltiu());
      OnlyAddsLater(p, a, s.Sltiu(), s.index);
      WrapSum(i, Adds(p, a, s.index), rest);
    } else if OnlyAdds(p, a + 4, s.Sltiu(), s.index) {
      if OnlyAddsAt(p, a, s.index) { OnlyAddsFrom(p, a, s.Sltiu(), s.index); }
      WrapTwice(x - rest, rest);
    }
  }

  /** Inside the repeated words, and the next word too. */
  predicate AtWord(s: Suffix, c: Constant, a: int) {
    IsSource(s.reject, a, s.Sltiu()) && a % 4 == 0 && a + 4 <= s.Sltiu() && (a < c.define ==> a + 4 <= c.define)
  }

  lemma WordAhead(p: Program, s: Suffix, c: Constant, a: int)
    requires Words(p, s, c) && s.reject <= a < s.Sltiu() && a % 4 == 0
    ensures AtWord(s, c, a)
  {
    NextBelow(a, s.Sltiu());
    SourceAt(s.reject, a, s.Sltiu());
    if a < c.define { NextBelow(a, c.define); }
  }

  /** Something read off the registers in front of a word. */
  type Reading = (int, seq<Word>) -> Word

  /** No word changes the reading. */
  ghost predicate Steady(p: Program, s: Suffix, c: Constant, x: Word, b: Word, f: Reading) {
    forall a, regs :: AtWord(s, c, a) && IsFile(regs) ==> SteadyAt(p, s, c, x, b, f, a, regs)
  }

  predicate SteadyAt(p: Program, s: Suffix, c: Constant, x: Word, b: Word, f: Reading, a: int, regs: seq<Word>)
    requires |regs| == 32
  {
    var r := After(p, s, c, a, regs, x, b); IsFile(r) && f(a + 4, r) == f(a, regs)
  }

  /** What no word changes is the same at the next check. */
  lemma {:induction false} PassReads(p: Program, s: Suffix, c: Constant, a: int, regs: seq<Word>, x: Word, b: Word, f: Reading)
    requires Words(p, s, c) && IsFile(regs) && s.reject <= a <= s.Sltiu() && a % 4 == 0 && Steady(p, s, c, x, b, f)
    ensures var r := Through(ChangeOf(p, s, c, x, b), a, s.Sltiu(), regs); IsFile(r) && f(s.Sltiu(), r) == f(a, regs)
    decreases s.Sltiu() - a
  {
    if a < s.Sltiu() {
      WordAhead(p, s, c, a);
      assert SteadyAt(p, s, c, x, b, f, a, regs);
      PassReads(p, s, c, a + 4, After(p, s, c, a, regs, x, b), x, b, f);
    }
  }

  ghost function IndexReading(p: Program, s: Suffix, x: Word): Reading {
    (a: int, regs: seq<Word>) => if |regs| == 32 then PassedIndex(p, s, a, regs[s.index], x) else 0
  }

  lemma PassedEnds(p: Program, s: Suffix, i: Word, x: Word)
    ensures PassedIndex(p, s, s.Sltiu(), i, x) == i
  {
  }

  lemma PassIndex(p: Program, s: Suffix, c: Constant, a: int, regs: seq<Word>, x: Word, b: Word)
    requires Words(p, s, c) && IsFile(regs) && s.reject <= a <= s.Sltiu() && a % 4 == 0
    ensures var r := Through(ChangeOf(p, s, c, x, b), a, s.Sltiu(), regs);
      IsFile(r) && r[s.index] == PassedIndex(p, s, a, regs[s.index], x)
  {
    var f := IndexReading(p, s, x);
    forall a: int, regs: seq<Word> | AtWord(s, c, a) && IsFile(regs) ensures SteadyAt(p, s, c, x, b, f, a, regs) {
      AfterIndex(p, s, c, a, regs, x, b);
      PassedStep(p, s, a, regs[s.index], After(p, s, c, a, regs, x, b)[s.index], x);
    }
    PassReads(p, s, c, a, regs, x, b, f);
    PassedEnds(p, s, Through(ChangeOf(p, s, c, x, b), a, s.Sltiu(), regs)[s.index], x);
  }

  /** The table register at the next check: the definition adds to an upper half, which may be itself. */
  function TableAhead(p: Program, c: Constant, a: int, t: Word, u: Word): Word {
    if a <= c.define then Wrap((u as int) + Low(p, c)) else t
  }

  function TableReading(p: Program, s: Suffix, c: Constant): Reading {
    (a: int, regs: seq<Word>) => if |regs| == 32 then TableAhead(p, c, a, regs[s.table], regs[c.up]) else 0
  }

  /** The definition adds to itself. */
  lemma PassTable(p: Program, s: Suffix, c: Constant, a: int, regs: seq<Word>, x: Word, b: Word)
    requires Words(p, s, c) && IsFile(regs) && s.reject <= a <= c.define && a % 4 == 0 && c.up == s.table
    ensures var r := Through(ChangeOf(p, s, c, x, b), a, s.Sltiu(), regs);
      |r| == 32 && r[s.table] == Wrap((regs[s.table] as int) + Low(p, c))
  {
    var f := TableReading(p, s, c);
    forall a: int, regs: seq<Word> | AtWord(s, c, a) && IsFile(regs) ensures SteadyAt(p, s, c, x, b, f, a, regs) {
      AfterIndex(p, s, c, a, regs, x, b);
      AfterTable(p, s, c, a, regs, x, b);
    }
    PassReads(p, s, c, a, regs, x, b, f);
  }

  /** The definition adds to the upper half that it finds. */
  lemma PassAdds(p: Program, s: Suffix, c: Constant, a: int, regs: seq<Word>, x: Word, b: Word)
    requires Words(p, s, c) && IsFile(regs) && s.reject <= a <= c.define && a % 4 == 0 && c.up != s.table
    ensures var r := Through(ChangeOf(p, s, c, x, b), a, s.Sltiu(), regs);
      |r| == 32 && r[s.table] == Wrap((regs[c.up] as int) + Low(p, c))
  {
    var f := TableReading(p, s, c);
    forall a: int, regs: seq<Word> | AtWord(s, c, a) && IsFile(regs) ensures SteadyAt(p, s, c, x, b, f, a, regs) {
      AfterIndex(p, s, c, a, regs, x, b);
      AfterUpper(p, s, c, a, regs, x, b);
    }
    PassReads(p, s, c, a, regs, x, b, f);
  }

  /** The upper half at the next check. */
  ghost function LaterUpper(p: Program, s: Suffix, c: Constant, a: int, u: Word, b: Word): Word {
    if LeavesAll(p, if a <= c.define then c.define + 4 else a, s.Sltiu(), c.up) then u else b
  }

  ghost function UpperReading(p: Program, s: Suffix, c: Constant, b: Word): Reading {
    (a: int, regs: seq<Word>) => if |regs| == 32 then LaterUpper(p, s, c, a, regs[c.up], b) else 0
  }

  lemma UpperStep(p: Program, s: Suffix, c: Constant, a: int, regs: seq<Word>, x: Word, b: Word)
    requires Words(p, s, c) && IsFile(regs) && AtWord(s, c, a) && c.up != s.table
    ensures LaterUpper(p, s, c, a + 4, After(p, s, c, a, regs, x, b)[c.up], b) == LaterUpper(p, s, c, a, regs[c.up], b)
  {
    AfterUpper(p, s, c, a, regs, x, b);
    if a > c.define {
      assert IsSource(a, a, s.Sltiu());
      if LeavesAll(p, a, s.Sltiu(), c.up) {
        LaterLeaves(p, a, a + 4, s.Sltiu(), c.up);
      } else if Leaves(p, a, c.up) && LeavesAll(p, a + 4, s.Sltiu(), c.up) {
        LeavesFrom(p, a, s.Sltiu(), c.up);
      }
    }
  }

  /** A later word leaves another upper half. */
  lemma PassUpper(p: Program, s: Suffix, c: Constant, a: int, regs: seq<Word>, x: Word, b: Word)
    requires Words(p, s, c) && IsFile(regs) && s.reject <= a <= c.define && a % 4 == 0 && c.up != s.table
    requires !LeavesAll(p, c.define + 4, s.Sltiu(), c.up)
    ensures var r := Through(ChangeOf(p, s, c, x, b), a, s.Sltiu(), regs); |r| == 32 && r[c.up] == b
  {
    var f := UpperReading(p, s, c, b);
    forall a: int, regs: seq<Word> | AtWord(s, c, a) && IsFile(regs) ensures SteadyAt(p, s, c, x, b, f, a, regs) {
      AfterIndex(p, s, c, a, regs, x, b);
      UpperStep(p, s, c, a, regs, x, b);
    }
    PassReads(p, s, c, a, regs, x, b, f);
    assert LeavesAll(p, s.Sltiu(), s.Sltiu(), c.up);
  }

  // ---- Whole executions ----------------------------------------------------------------

  /** Behind the table's size nothing leads back into the table. */
  predicate Far(s: Suffix, x: int) { 4 * s.count <= Wrap(x) }

  predicate Misses(s: Suffix, c: Constant, table: int) { !Hits(s, c, Wrap(table + s.offset)) }

  lemma FarMisses(s: Suffix, c: Constant, x: int)
    requires Base(s, c) + 4 * s.count <= 0x1_0000_0000 && Far(s, x)
    ensures Misses(s, c, x + c.value)
  {
    assert x + c.value + s.offset == x + (c.value + s.offset);
    WrapMoves(x, c.value + s.offset);
    WrapTwice(x, Base(s, c));
    BeyondTable(Base(s, c), 4 * s.count, Wrap(x));
  }

  lemma MissesWrapped(s: Suffix, c: Constant, x: int, y: int)
    requires Misses(s, c, x) && Wrap(x) == Wrap(y)
    ensures Misses(s, c, y) && Misses(s, c, Wrap(y))
  {
    WrapTwice(x, s.offset);
    WrapTwice(y, s.offset);
  }

  lemma SummedBreaks(p: Program, s: Suffix, c: Constant, r2: seq<Word>) returns (run: seq<Cpu>)
    requires Shape(p, s) && s.jr % 4 == 0 && IsFile(r2) && Misses(s, c, Wrap((r2[s.scaled] as int) + r2[s.table]))
    ensures Breaks(p, s, c, run, Line(p, s, c, s.Addu(), r2))
  {
    var r3 := Set(r2, s.address, Wrap((r2[s.scaled] as int) + r2[s.table]));
    run := LoadsOdd(p, s, c, r3);
    AddsUp(p, s, c, r2);
    run := Prepend(p, s, c, Line(p, s, c, s.Addu(), r2), Line(p, s, c, s.lw, r3), run);
  }

  lemma ShiftedBreaks(p: Program, s: Suffix, c: Constant, r1: seq<Word>) returns (run: seq<Cpu>)
    requires Shape(p, s) && s.jr % 4 == 0 && IsFile(r1) && r1[s.index] < s.count
    requires Misses(s, c, 4 * (r1[s.index] as int) + r1[s.table])
    ensures Breaks(p, s, c, run, Line(p, s, c, s.Sll(), r1))
  {
    SmallScale(r1[s.index], s.count);
    var x := 4 * (r1[s.index] as int);
    var r2 := Set(r1, s.scaled, x);
    assert r2[s.scaled] == x && r2[s.table] == r1[s.table] && IsFile(r2);
    assert Misses(s, c, Wrap(x + r1[s.table])) by { MissesWrapped(s, c, x + r1[s.table], x + r1[s.table]); }
    run := SummedBreaks(p, s, c, r2);
    Shifts(p, s, c, r1);
    run := Prepend(p, s, c, Line(p, s, c, s.Sll(), r1), Line(p, s, c, s.Addu(), r2), run);
  }

  /** An index that passes the check where the table's address is wrong: the odd word beside the table is loaded. */
  lemma DispatchBreaks(p: Program, s: Suffix, c: Constant, r0: seq<Word>) returns (run: seq<Cpu>)
    requires Shape(p, s) && s.jr % 4 == 0 && s.reject % 4 == 0 && IsFile(r0)
    requires s.guard != s.index && s.guard != s.table && r0[s.index] < s.count
    requires Misses(s, c, 4 * (r0[s.index] as int) + r0[s.table])
    ensures Breaks(p, s, c, run, Line(p, s, c, s.Sltiu(), r0))
  {
    var r1 := Set(r0, s.guard, 1);
    run := ShiftedBreaks(p, s, c, r1);
    Idles(p, s, c, r1, s.Sll());
    run := Prepend(p, s, c, Line(p, s, c, s.Nop(), r1), Line(p, s, c, s.Sll(), r1), run);
    Branches(p, s, c, r1);
    run := Prepend(p, s, c, Line(p, s, c, s.Beq(), r1), Line(p, s, c, s.Nop(), r1), run);
    Bounds(p, s, c, r0);
    run := Prepend(p, s, c, Line(p, s, c, s.Sltiu(), r0), Line(p, s, c, s.Beq(), r1), run);
  }

  /** The registers at the next check, when this one rejects. */
  function NextCheck(p: Program, s: Suffix, c: Constant, r: seq<Word>, x: Word, b: Word): seq<Word>
    requires |r| == 32
  {
    Through(ChangeOf(p, s, c, x, b), s.reject, s.Sltiu(), Set(r, s.guard, 0))
  }

  /** A rejected check, the repeated words, and what follows. */
  lemma RejectedRuins(p: Program, entry: int, s: Suffix, c: Constant, r: seq<Word>, x: Word, b: Word, tail: seq<Cpu>)
    returns (run: seq<Cpu>)
    requires Repeating(p, entry, s, c) && OpenWords(p, s, c) && IsFile(r) && r[s.index] >= s.count
    requires Ruins(p, s, c, tail, Line(p, s, c, s.Sltiu(), NextCheck(p, s, c, r, x, b)))
    ensures Ruins(p, s, c, run, Line(p, s, c, s.Sltiu(), r))
  {
    var after := Set(r, s.guard, 0);
    AfterMayHappen(p, entry, s, c, x, b);
    run := PassRuins(p, s, c, ChangeOf(p, s, c, x, b), s.reject, after, tail);
    run := RejectsInto(p, s, c, r, run);
  }

  lemma RejectsInto(p: Program, s: Suffix, c: Constant, r: seq<Word>, tail: seq<Cpu>) returns (run: seq<Cpu>)
    requires Shape(p, s) && s.jr % 4 == 0 && s.reject % 4 == 0 && s.reject < s.Sltiu() && IsFile(r) && r[s.index] >= s.count
    requires Ruins(p, s, c, tail, Line(p, s, c, s.reject, Set(r, s.guard, 0)))
    ensures Ruins(p, s, c, run, Line(p, s, c, s.Sltiu(), r))
  {
    var after := Set(r, s.guard, 0);
    var slot := Cpu(s.Nop(), s.reject, after, Hostile(p, s, c));
    Idles(p, s, c, after, s.reject);
    run := Before(p, s, c, slot, Line(p, s, c, s.reject, after), tail);
    Branches(p, s, c, after);
    run := Before(p, s, c, Line(p, s, c, s.Beq(), after), slot, run);
    Bounds(p, s, c, r);
    run := Before(p, s, c, Line(p, s, c, s.Sltiu(), r), Line(p, s, c, s.Beq(), after), run);
  }

  lemma LastRuins(p: Program, entry: int, s: Suffix, c: Constant, r: seq<Word>) returns (run: seq<Cpu>)
    requires Repeating(p, entry, s, c) && s.guard != s.table && IsFile(r) && r[s.index] < s.count
    requires Misses(s, c, 4 * (r[s.index] as int) + r[s.table])
    ensures Ruins(p, s, c, run, Line(p, s, c, s.Sltiu(), r))
  {
    run := DispatchBreaks(p, s, c, r);
  }

  /** What a whole pass adds to the index, when it only adds. */
  function Swing(p: Program, s: Suffix): int { Sum(p, s.index, s.reject, s.Sltiu()) }

  /** The index that passes the last check. */
  function LastIndex(p: Program, s: Suffix): Word
    requires 1 <= s.count < 512
  {
    if Swing(p, s) < 0 then s.count - 1 else 0
  }

  /** The index at a check with so many rejected passes to go. */
  ghost function IndexFor(p: Program, s: Suffix, n: nat): Word
    requires 1 <= s.count < 512
  {
    if OnlyAdds(p, s.reject, s.Sltiu(), s.index) then Wrap(LastIndex(p, s) - n * Swing(p, s))
    else if n == 0 then LastIndex(p, s) else s.count
  }

  lemma SwingBound(p: Program, s: Suffix, n: nat)
    requires s.Sltiu() - s.reject <= 4 * 63 && n <= 2048
    ensures -0x7E00_0000 * 2 <= n * Swing(p, s) <= 0x7E00_0000 * 2
  {
    SumBound(p, s.index, s.reject, s.Sltiu(), 63);
    ProductBound(n, Swing(p, s), 2048, 0x1F_8000);
  }

  lemma ProductBound(n: int, x: int, most: int, bound: int)
    requires 0 <= n <= most && -bound <= x <= bound
    ensures -(most * bound) <= n * x <= most * bound
  {
    assert n * x <= n * bound && n * bound <= most * bound;
    assert n * x >= -(n * bound);
  }

  /** Before the last check the index is rejected. */
  lemma IndexRejects(p: Program, s: Suffix, n: nat)
    requires 1 <= s.count < 512 && s.Sltiu() - s.reject <= 4 * 63 && 0 < n <= 2048 && !IndexStays(p, s)
    ensures IndexFor(p, s, n) >= s.count
  {
    if OnlyAdds(p, s.reject, s.Sltiu(), s.index) {
      SwingBound(p, s, n);
      SameSign(n, Swing(p, s));
      SwingRejects(s.count, LastIndex(p, s), n * Swing(p, s));
    }
  }

  lemma SameSign(n: nat, x: int)
    requires n > 0
    ensures (x > 0 ==> n * x > 0) && (x < 0 ==> n * x < 0)
  {
  }

  lemma SwingRejects(count: int, x: int, swung: int)
    requires 1 <= count < 512 && swung != 0 && x == (if swung < 0 then count - 1 else 0) && -0xFC00_0000 <= swung <= 0xFC00_0000
    ensures Wrap(x - swung) >= count
  {
  }

  lemma IndexNext(p: Program, s: Suffix, n: nat)
    requires 1 <= s.count < 512 && n > 0
    ensures PassedIndex(p, s, s.reject, IndexFor(p, s, n), IndexFor(p, s, n - 1)) == IndexFor(p, s, n - 1)
  {
    var x, swing := LastIndex(p, s), Swing(p, s);
    WrapTwice(x - n * swing, swing);
    assert x - n * swing + swing == x - (n - 1) * swing;
  }

  /** Adding so often leads beside the table. */
  predicate Drifts(s: Suffix, c: Constant, x: int, t: Word, low: int, n: nat) { Misses(s, c, x + t + n * low) }

  lemma DriftsLater(s: Suffix, c: Constant, x: int, t: Word, low: int, n: nat)
    requires n > 0 && Drifts(s, c, x, t, low, n)
    ensures Drifts(s, c, x, Wrap(t + low), low, n - 1)
  {
    var later := x + (n - 1) * low;
    WrapTwice(t + low, later);
    assert t + low + later == x + t + n * low;
    assert Wrap(t + low) + later == x + Wrap(t + low) + (n - 1) * low;
    MissesWrapped(s, c, x + t + n * low, x + Wrap(t + low) + (n - 1) * low);
  }

  /** A check with so many rejected passes to go. */
  ghost predicate Adrift(p: Program, s: Suffix, c: Constant, r: seq<Word>, n: nat)
    requires 1 <= s.count < 512
  {
    && IsFile(r) && n <= 2048 && r[s.index] == IndexFor(p, s, n)
    && Drifts(s, c, 4 * LastIndex(p, s) as int, r[s.table], Low(p, c), n)
  }

  lemma NextIndex(p: Program, s: Suffix, c: Constant, r: seq<Word>, n: nat, b: Word)
    requires Words(p, s, c) && IsFile(r) && s.guard != s.index && 1 <= s.count < 512 && n > 0 && r[s.index] == IndexFor(p, s, n)
    ensures var next := NextCheck(p, s, c, r, IndexFor(p, s, n - 1), b); IsFile(next) && next[s.index] == IndexFor(p, s, n - 1)
  {
    PassIndex(p, s, c, s.reject, Set(r, s.guard, 0), IndexFor(p, s, n - 1), b);
    IndexNext(p, s, n);
  }

  lemma NextUpper(p: Program, s: Suffix, c: Constant, r: seq<Word>, x: Word, b: Word)
    requires Words(p, s, c) && IsFile(r) && s.guard != c.up && c.up != s.table && !LeavesAll(p, c.define + 4, s.Sltiu(), c.up)
    ensures var next := NextCheck(p, s, c, r, x, b);
      |next| == 32 && next[c.up] == b && next[s.table] == Wrap((r[c.up] as int) + Low(p, c))
  {
    PassAdds(p, s, c, s.reject, Set(r, s.guard, 0), x, b);
    PassUpper(p, s, c, s.reject, Set(r, s.guard, 0), x, b);
  }

  lemma DriftPass(p: Program, entry: int, s: Suffix, c: Constant, r: seq<Word>, n: nat)
    requires Repeating(p, entry, s, c) && OpenWords(p, s, c) && c.up == s.table && s.guard != s.table && IsFile(r)
    requires n > 0 && r[s.index] == IndexFor(p, s, n)
    ensures var next := NextCheck(p, s, c, r, IndexFor(p, s, n - 1), 0);
      && IsFile(next) && next[s.index] == IndexFor(p, s, n - 1)
      && next[s.table] == Wrap((r[s.table] as int) + Low(p, c))
  {
    assert Words(p, s, c) by { RepeatedWords(p, entry, s, c); }
    NextIndex(p, s, c, r, n, 0);
    PassTable(p, s, c, s.reject, Set(r, s.guard, 0), IndexFor(p, s, n - 1), 0);
  }

  lemma DriftsOn(p: Program, entry: int, s: Suffix, c: Constant, r: seq<Word>, n: nat)
    requires Repeating(p, entry, s, c) && OpenWords(p, s, c) && c.up == s.table && s.guard != s.table
    requires Adrift(p, s, c, r, n) && n > 0
    ensures Adrift(p, s, c, NextCheck(p, s, c, r, IndexFor(p, s, n - 1), 0), n - 1)
  {
    DriftPass(p, entry, s, c, r, n);
    DriftsLater(s, c, 4 * LastIndex(p, s) as int, r[s.table], Low(p, c), n);
  }

  lemma DriftBack(p: Program, entry: int, s: Suffix, c: Constant, r: seq<Word>, n: nat, tail: seq<Cpu>) returns (run: seq<Cpu>)
    requires Repeating(p, entry, s, c) && OpenWords(p, s, c) && Adrift(p, s, c, r, n) && n > 0 && !IndexStays(p, s)
    requires Ruins(p, s, c, tail, Line(p, s, c, s.Sltiu(), NextCheck(p, s, c, r, IndexFor(p, s, n - 1), 0)))
    ensures Ruins(p, s, c, run, Line(p, s, c, s.Sltiu(), r))
  {
    IndexRejects(p, s, n);
    run := RejectedRuins(p, entry, s, c, r, IndexFor(p, s, n - 1), 0, tail);
  }

  lemma IndexEnds(p: Program, s: Suffix)
    requires 1 <= s.count < 512
    ensures IndexFor(p, s, 0) == LastIndex(p, s) < s.count
  {
  }

  lemma DriftEnds(p: Program, entry: int, s: Suffix, c: Constant, r: seq<Word>) returns (run: seq<Cpu>)
    requires Repeating(p, entry, s, c) && s.guard != s.table && Adrift(p, s, c, r, 0)
    ensures Ruins(p, s, c, run, Line(p, s, c, s.Sltiu(), r))
  {
    IndexEnds(p, s);
    assert Misses(s, c, 4 * (r[s.index] as int) + r[s.table]);
    run := LastRuins(p, entry, s, c, r);
  }

  /** The definition adds to itself on every pass, until an index passes the check. */
  lemma {:induction false} DriftRuins(p: Program, entry: int, s: Suffix, c: Constant, r: seq<Word>, n: nat) returns (run: seq<Cpu>)
    requires Repeating(p, entry, s, c) && OpenWords(p, s, c) && c.up == s.table && !IndexStays(p, s) && s.guard != s.table
    requires Adrift(p, s, c, r, n)
    ensures Ruins(p, s, c, run, Line(p, s, c, s.Sltiu(), r))
    decreases n
  {
    if n == 0 {
      run := DriftEnds(p, entry, s, c, r);
    } else {
      DriftsOn(p, entry, s, c, r, n);
      run := DriftRuins(p, entry, s, c, NextCheck(p, s, c, r, IndexFor(p, s, n - 1), 0), n - 1);
      run := DriftBack(p, entry, s, c, r, n, run);
    }
  }

  lemma OverwritePass(p: Program, entry: int, s: Suffix, c: Constant, r: seq<Word>, n: nat, b: Word)
    requires Repeating(p, entry, s, c) && OpenWords(p, s, c) && c.up != s.table && IsFile(r)
    requires !LeavesAll(p, c.define + 4, s.Sltiu(), c.up) && n > 0 && r[s.index] == IndexFor(p, s, n)
    ensures var next := NextCheck(p, s, c, r, IndexFor(p, s, n - 1), b);
      && IsFile(next) && next[s.index] == IndexFor(p, s, n - 1) && next[c.up] == b
      && next[s.table] == Wrap((r[c.up] as int) + Low(p, c))
  {
    assert Words(p, s, c) by { RepeatedWords(p, entry, s, c); }
    NextIndex(p, s, c, r, n, b);
    NextUpper(p, s, c, r, IndexFor(p, s, n - 1), b);
  }

  lemma SumMisses(s: Suffix, c: Constant, x: int, y: int)
    requires Misses(s, c, x + y)
    ensures Misses(s, c, x + Wrap(y))
  {
    WrapMoves(x, y);
    MissesWrapped(s, c, x + y, x + Wrap(y));
  }

  /** The pass that adds the definition to the overwritten upper half. */
  lemma OverwrittenRuins(p: Program, entry: int, s: Suffix, c: Constant, r: seq<Word>) returns (run: seq<Cpu>)
    requires Repeating(p, entry, s, c) && OpenWords(p, s, c) && c.up != s.table && !IndexStays(p, s) && s.guard != s.table
    requires !LeavesAll(p, c.define + 4, s.Sltiu(), c.up) && IsFile(r) && r[s.index] == IndexFor(p, s, 1)
    requires Misses(s, c, 4 * (LastIndex(p, s) as int) + (r[c.up] + Low(p, c)))
    ensures Ruins(p, s, c, run, Line(p, s, c, s.Sltiu(), r))
  {
    OverwritePass(p, entry, s, c, r, 1, 0);
    IndexEnds(p, s);
    SumMisses(s, c, 4 * LastIndex(p, s) as int, r[c.up] + Low(p, c));
    run := LastRuins(p, entry, s, c, NextCheck(p, s, c, r, IndexFor(p, s, 0), 0));
    IndexRejects(p, s, 1);
    run := RejectedRuins(p, entry, s, c, r, IndexFor(p, s, 0), 0, run);
  }

  /** A later word overwrites the upper half in one pass, the definition adds to it in the next. */
  lemma OverwriteRuins(p: Program, entry: int, s: Suffix, c: Constant, r: seq<Word>, b: Word) returns (run: seq<Cpu>)
    requires Repeating(p, entry, s, c) && OpenWords(p, s, c) && c.up != s.table && !IndexStays(p, s) && s.guard != s.table
    requires !LeavesAll(p, c.define + 4, s.Sltiu(), c.up) && IsFile(r) && r[s.index] == IndexFor(p, s, 2)
    requires Misses(s, c, 4 * (LastIndex(p, s) as int) + (b + Low(p, c)))
    ensures Ruins(p, s, c, run, Line(p, s, c, s.Sltiu(), r))
  {
    OverwritePass(p, entry, s, c, r, 2, b);
    run := OverwrittenRuins(p, entry, s, c, NextCheck(p, s, c, r, IndexFor(p, s, 1), b));
    IndexRejects(p, s, 2);
    run := RejectedRuins(p, entry, s, c, r, IndexFor(p, s, 1), b, run);
  }

  lemma DriftIsFar(s: Suffix, x: int, low: int)
    requires -0x8000 <= low < 0x8000 && low != 0 && 0 <= x < s.count < 512
    ensures Far(s, 4 * x + 2048 * low)
  {
  }

  lemma LowFits(p: Program, c: Constant)
    ensures -0x8000 <= Low(p, c) < 0x8000
  {
  }

  /** The registers of a first check. */
  function Start(s: Suffix, c: Constant, i: Word): seq<Word> {
    seq(32, n => 0)[s.index := i][c.up := c.upper][s.table := c.value]
  }

  lemma DriftStarts(p: Program, entry: int, s: Suffix, c: Constant) returns (run: seq<Cpu>)
    requires Repeating(p, entry, s, c) && OpenWords(p, s, c) && !IndexStays(p, s) && s.guard != s.table
    requires c.up == s.table && Low(p, c) != 0
    ensures Ruins(p, s, c, run, Line(p, s, c, s.Sltiu(), Start(s, c, IndexFor(p, s, 2048))))
  {
    var x, low := LastIndex(p, s), Low(p, c);
    LowFits(p, c);
    IndexEnds(p, s);
    DriftIsFar(s, x, low);
    FarMisses(s, c, 4 * x as int + 2048 * low);
    assert 4 * x as int + c.value + 2048 * low == 4 * x as int + 2048 * low + c.value;
    assert Adrift(p, s, c, Start(s, c, IndexFor(p, s, 2048)), 2048);
    run := DriftRuins(p, entry, s, c, Start(s, c, IndexFor(p, s, 2048)), 2048);
  }

  lemma OverwriteStarts(p: Program, entry: int, s: Suffix, c: Constant) returns (run: seq<Cpu>)
    requires Repeating(p, entry, s, c) && OpenWords(p, s, c) && !IndexStays(p, s) && s.guard != s.table
    requires c.up != s.table && !LeavesAll(p, c.define + 4, s.Sltiu(), c.up)
    ensures Ruins(p, s, c, run, Line(p, s, c, s.Sltiu(), Start(s, c, IndexFor(p, s, 2))))
  {
    var x, low := 4 * LastIndex(p, s) as int, Low(p, c);
    var b := Wrap(0x8000_0000 + c.value - low - x);
    FarMisses(s, c, 0x8000_0000);
    WrapTwice(0x8000_0000 + c.value - low - x, low + x);
    assert b + (low + x) == x + (b + low);
    MissesWrapped(s, c, 0x8000_0000 + c.value, x + (b + low));
    run := OverwriteRuins(p, entry, s, c, Start(s, c, IndexFor(p, s, 2)), b);
  }

  lemma SomethingRuins(p: Program, entry: int, s: Suffix, c: Constant) returns (i: Word, run: seq<Cpu>)
    requires Repeating(p, entry, s, c) && OpenWords(p, s, c) && !TableStays(p, s, c) && !IndexStays(p, s) && s.guard != s.table
    ensures Ruins(p, s, c, run, Line(p, s, c, s.Sltiu(), Start(s, c, i)))
  {
    if c.up == s.table {
      i := IndexFor(p, s, 2048);
      run := DriftStarts(p, entry, s, c);
    } else {
      i := IndexFor(p, s, 2);
      run := OverwriteStarts(p, entry, s, c);
    }
  }

  lemma RuinedIsUnsound(p: Program, s: Suffix, c: Constant, i: Word, run: seq<Cpu>)
    requires s.index != 0 && c.up != 0 && s.table != 0 && s.jr % 4 == 0 && s.lw % 4 == 0
    requires Ruins(p, s, c, run, Line(p, s, c, s.Sltiu(), Start(s, c, i))) && 1 !in TargetsOf(p, s, c)
    ensures !RepeatSound(p, s, c)
  {
    forall i | 0 <= i < |run| && run[i].pc == s.lw ensures Intact(p, s, c, run[i]) {
      HostileIsIntact(p, s, c, run[i]);
    }
    assert RepeatRun(p, s, c, run) && !JumpTableExactness.Lands(p, s, c, run[|run|-1]);
  }

  /** Both definitions lie within the recogniser's windows, so few words are repeated. */
  lemma FewWords(p: Program, entry: int, s: Suffix, c: Constant)
    requires TableConstant(p, entry, s.table, s.Addu()) == Some(c) && c.constant < s.reject
    requires s.reject % 4 == 0 && c.constant % 4 == 0
    ensures s.Sltiu() - s.reject <= 4 * 63
  {
    var define := WriterBefore(p, entry, s.table, s.Addu()).value;
    NearestLeaves(p, s.table, s.Sll(), Max(entry, s.Addu() - 0x80));
    if !PlainLui(p(define).value, s.table) {
      NearestLeaves(p, p(define).value.rs, define - 4, Max(entry, define - 0x80));
    }
  }

  lemma AlignedWords(p: Program, s: Suffix, c: Constant)
    requires Shape(p, s) && Defined(p, s, c) && s.jr % 4 == 0
    ensures s.lw % 4 == 0 && c.constant % 4 == 0 && c.define % 4 == 0
  {
    ConstantAligned(p, s, c);
  }

  lemma RecognisedRepeats(p: Program, entry: int, hardCap: int, lo: int, hi: int, jr: int, reg: int, s: Suffix, c: Constant)
    requires Recognise(p, entry, hardCap, lo, hi, jr, reg) == Some((s, c)) && hi <= 0x1_0000_0000 && jr % 4 == 0
    requires Repeats(p, s, c)
    ensures Repeating(p, entry, s, c)
  {
    assert Accepted(p, entry, s, c) && s.jr == jr by { RecognisedIsAccepted(p, entry, hardCap, lo, hi, jr, reg, s, c); }
    assert s.lw % 4 == 0 && c.constant % 4 == 0 && c.define % 4 == 0 by { AlignedWords(p, s, c); }
    FewWords(p, entry, s, c);
  }

  /**
   A repeated definition is harmless whenever it gives the same address again or the index stays rejected, and when the
   other repeated words are open or step the index, only then: otherwise an execution leaves the table.
   */
  lemma RepeatedExactly(p: Program, entry: int, hardCap: int, lo: int, hi: int, jr: int, reg: int, s: Suffix, c: Constant)
    requires Recognise(p, entry, hardCap, lo, hi, jr, reg) == Some((s, c)) && hi <= 0x1_0000_0000 && jr % 4 == 0
    requires Repeats(p, s, c)
    ensures TableStays(p, s, c) || IndexStays(p, s) ==> RepeatSound(p, s, c)
    ensures OpenWords(p, s, c) && RepeatSound(p, s, c) ==> TableStays(p, s, c) || IndexStays(p, s)
  {
    RecognisedRepeats(p, entry, hardCap, lo, hi, jr, reg, s, c);
    if TableStays(p, s, c) || IndexStays(p, s) {
      HarmlessIsSound(p, entry, s, c);
    } else if OpenWords(p, s, c) {
      GuardIsNoTable(p, s, c);
      OddIsNoTarget(p, entry, hardCap, lo, hi, s, c);
      var i, run := SomethingRuins(p, entry, s, c);
      RuinedIsUnsound(p, s, c, i, run);
    }
  }
}
