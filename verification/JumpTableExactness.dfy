/** Exactly when the recognised bounds check guards the dispatch, with executions that break it otherwise. */
module JumpTableExactness {
  import opened Prelude
  import opened BitWords
  import opened Mips
  import opened Machine
  import opened JumpTable
  import opened JumpTableSoundness

  /** An execution of the check and the dispatch that starts with the table's address in its register. */
  ghost predicate CoreRun(p: Program, s: Suffix, c: Constant, run: seq<Cpu>) {
    && run != [] && IsRun(p, run) && IsCpu(run[0]) && TableKept(p, s, c, run)
    && run[0].pc == s.Sltiu() && run[0].npc == s.Beq() && run[0].regs[s.table] == c.value
    && run[|run|-1].pc == s.jr
    && forall i :: 0 <= i < |run| - 1 ==> s.Sltiu() <= run[i].pc < s.jr
  }

  ghost predicate Lands(p: Program, s: Suffix, c: Constant, u: Cpu) {
    |u.regs| == 32 && u.regs[s.reg] in TargetsOf(p, s, c)
  }

  /** Every such execution arrives at the `jr` with a value from the table. */
  ghost predicate CoreSound(p: Program, s: Suffix, c: Constant) {
    forall run :: CoreRun(p, s, c, run) ==> Lands(p, s, c, run[|run|-1])
  }

  lemma {:induction false} CoreKeeps(p: Program, entry: int, s: Suffix, c: Constant, run: seq<Cpu>, n: nat)
    requires Accepted(p, entry, s, c) && Guards(s, c) && s.jr % 4 == 0 && CoreRun(p, s, c, run) && n < |run|
    ensures IsCpu(run[n]) && Facts(p, s, c, TargetsOf(p, s, c), run[n])
    decreases n
  {
    if n > 0 {
      CoreKeeps(p, entry, s, c, run, n - 1);
      assert StepAt(p, run, n - 1);
      CoreStep(p, entry, s, c, run[n-1], run[n]);
    }
  }

  lemma GuardedIsSound(p: Program, entry: int, s: Suffix, c: Constant)
    requires Accepted(p, entry, s, c) && Guards(s, c) && s.jr % 4 == 0
    ensures CoreSound(p, s, c)
  {
    forall run | CoreRun(p, s, c, run) ensures Lands(p, s, c, run[|run|-1]) {
      CoreKeeps(p, entry, s, c, run, |run| - 1);
    }
  }

  // ---- Executions that break an unguarded switch ----------------------------

  /** Memory with the table in it and an odd word everywhere else. */
  function Hostile(p: Program, s: Suffix, c: Constant): int -> Word {
    a => if Hits(s, c, a) then Entry(p, s, c, (a - Base(s, c)) / 4) else 1
  }

  lemma HostileIsIntact(p: Program, s: Suffix, c: Constant, u: Cpu)
    requires u.mem == Hostile(p, s, c)
    ensures Intact(p, s, c, u)
  {
    forall k: nat | k < s.count ensures IntactAt(p, s, c, u, k) {
      assert (Base(s, c) + 4 * k - Base(s, c)) / 4 == k;
    }
  }

  /** Scaling an index outside the table never lands back inside it. */
  lemma OutsideAddress(s: Suffix, c: Constant, x: int)
    requires Base(s, c) + 4 * s.count <= 0x1_0000_0000 && 4 * s.count <= x < 0x1_0000_0000 && x % 4 == 0 && Base(s, c) % 4 == 0
    ensures var a := Wrap((Wrap(x + c.value) as int) + s.offset); !Hits(s, c, a) && a % 4 == 0
  {
    WrapTwice(x + c.value, s.offset);
    WrapMoves(x, c.value + s.offset);
    assert x + c.value + s.offset == x + (c.value + s.offset);
    BeyondTable(Base(s, c), 4 * s.count, x);
    WrapAligned(x + Base(s, c));
  }

  lemma BeyondTable(base: Word, size: int, x: int)
    requires base + size <= 0x1_0000_0000 && 0 <= size <= x < 0x1_0000_0000
    ensures !(base <= Wrap(x + base) < base + size)
  {
  }

  predicate BadIndex(s: Suffix, c: Constant, regs: seq<Word>) {
    |regs| == 32 && regs[0] == 0 && regs[s.table] == c.value && !Indexed(s, regs)
  }

  /** A run inside the check and the dispatch that ends at the `jr` with the odd word. */
  ghost predicate Breaks(p: Program, s: Suffix, c: Constant, run: seq<Cpu>, u: Cpu) {
    && run != [] && run[0] == u && IsRun(p, run) && run[|run|-1].pc == s.jr && |run[|run|-1].regs| == 32
    && run[|run|-1].regs[s.reg] == 1
    && (forall i :: 0 <= i < |run| ==> run[i].mem == Hostile(p, s, c))
    && forall i :: 0 <= i < |run| - 1 ==> s.Sltiu() <= run[i].pc < s.jr
  }

  lemma Prepend(p: Program, s: Suffix, c: Constant, u: Cpu, d: Cpu, run: seq<Cpu>) returns (longer: seq<Cpu>)
    requires Breaks(p, s, c, run, d) && Step(p, u, d)
    requires u.mem == Hostile(p, s, c) && s.Sltiu() <= u.pc < s.jr
    ensures Breaks(p, s, c, longer, u)
  {
    longer := [u] + run;
    forall i | 0 <= i < |longer| - 1 ensures StepAt(p, longer, i) {
      if i > 0 { assert StepAt(p, run, i - 1); }
    }
  }

  function Line(p: Program, s: Suffix, c: Constant, pc: int, regs: seq<Word>): Cpu {
    Cpu(pc, pc + 4, regs, Hostile(p, s, c))
  }

  lemma LoadsOdd(p: Program, s: Suffix, c: Constant, regs: seq<Word>) returns (run: seq<Cpu>)
    requires Shape(p, s) && s.jr % 4 == 0 && |regs| == 32 && regs[0] == 0
    requires !Hits(s, c, Wrap((regs[s.address] as int) + s.offset))
    ensures Breaks(p, s, c, run, Line(p, s, c, s.lw, regs))
  {
    var after := Set(regs, s.reg, 1);
    run := [Line(p, s, c, s.jr, after)];
    if s.jr == s.lw + 8 {
      run := Prepend(p, s, c, Line(p, s, c, s.lw + 4, after), Line(p, s, c, s.jr, after), run);
    }
    LoadOdd(p, s, c, regs);
    run := Prepend(p, s, c, Line(p, s, c, s.lw, regs), Line(p, s, c, s.lw + 4, after), run);
  }

  /** The odd word, or what an unaligned load may bring. */
  lemma LoadOdd(p: Program, s: Suffix, c: Constant, regs: seq<Word>)
    requires Shape(p, s) && s.jr % 4 == 0 && |regs| == 32 && regs[0] == 0
    requires !Hits(s, c, Wrap((regs[s.address] as int) + s.offset))
    ensures Step(p, Line(p, s, c, s.lw, regs), Line(p, s, c, s.lw + 4, Set(regs, s.reg, 1)))
  {
  }

  lemma AddsUp(p: Program, s: Suffix, c: Constant, regs: seq<Word>)
    requires Shape(p, s) && s.jr % 4 == 0 && |regs| == 32 && regs[0] == 0
    ensures Step(p, Line(p, s, c, s.Addu(), regs),
                 Line(p, s, c, s.lw, Set(regs, s.address, Wrap((regs[s.scaled] as int) + regs[s.table]))))
  {
  }

  lemma Shifts(p: Program, s: Suffix, c: Constant, regs: seq<Word>)
    requires Shape(p, s) && s.jr % 4 == 0 && |regs| == 32 && regs[0] == 0
    ensures Step(p, Line(p, s, c, s.Sll(), regs), Line(p, s, c, s.Addu(), Set(regs, s.scaled, Wrap(4 * (regs[s.index] as int)))))
  {
    assert Pow2(2) == 4;
  }

  /** From the addition on with a scaled index outside the table. */
  lemma AddBreaks(p: Program, s: Suffix, c: Constant, regs: seq<Word>) returns (run: seq<Cpu>)
    requires Shape(p, s) && s.jr % 4 == 0 && |regs| == 32 && regs[0] == 0 && regs[s.table] == c.value
    requires Base(s, c) + 4 * s.count <= 0x1_0000_0000 && Base(s, c) % 4 == 0
    requires regs[s.scaled] % 4 == 0 && regs[s.scaled] >= 4 * s.count
    ensures Breaks(p, s, c, run, Line(p, s, c, s.Addu(), regs))
  {
    var sum := Wrap((regs[s.scaled] as int) + c.value);
    OutsideAddress(s, c, regs[s.scaled]);
    var after := Set(regs, s.address, sum);
    run := LoadsOdd(p, s, c, after);
    AddsUp(p, s, c, regs);
    run := Prepend(p, s, c, Line(p, s, c, s.Addu(), regs), Line(p, s, c, s.lw, after), run);
  }

  /** From the shift on with an index outside the table: the odd word is loaded and jumped to. */
  lemma ShiftBreaks(p: Program, entry: int, s: Suffix, c: Constant, regs: seq<Word>) returns (run: seq<Cpu>)
    requires Accepted(p, entry, s, c) && s.jr % 4 == 0 && BadIndex(s, c, regs)
    ensures Breaks(p, s, c, run, Line(p, s, c, s.Sll(), regs))
  {
    var x := Wrap(4 * (regs[s.index] as int));
    WrapAligned(4 * (regs[s.index] as int));
    var after := Set(regs, s.scaled, x);
    run := AddBreaks(p, s, c, after);
    Shifts(p, s, c, regs);
    run := Prepend(p, s, c, Line(p, s, c, s.Sll(), regs), Line(p, s, c, s.Addu(), after), run);
  }

  lemma Bounds(p: Program, s: Suffix, c: Constant, regs: seq<Word>)
    requires Shape(p, s) && s.jr % 4 == 0 && |regs| == 32 && regs[0] == 0
    ensures Step(p, Line(p, s, c, s.Sltiu(), regs),
                 Line(p, s, c, s.Beq(), Set(regs, s.guard, if regs[s.index] < s.count then 1 else 0)))
  {
  }

  lemma Branches(p: Program, s: Suffix, c: Constant, regs: seq<Word>)
    requires Shape(p, s) && s.jr % 4 == 0 && |regs| == 32 && regs[0] == 0 && s.reject % 4 == 0
    ensures Step(p, Line(p, s, c, s.Beq(), regs),
                 Cpu(s.Nop(), if regs[s.guard] == 0 then s.reject else s.Sll(), regs, Hostile(p, s, c)))
  {
  }

  lemma Idles(p: Program, s: Suffix, c: Constant, regs: seq<Word>, npc: int)
    requires Shape(p, s) && s.jr % 4 == 0 && |regs| == 32 && regs[0] == 0 && npc % 4 == 0
    ensures Step(p, Cpu(s.Nop(), npc, regs, Hostile(p, s, c)), Line(p, s, c, npc, regs))
  {
  }

  /** A whole execution that starts with the table's address in place. */
  ghost predicate BreaksFromCheck(p: Program, s: Suffix, c: Constant, run: seq<Cpu>, regs: seq<Word>) {
    && |regs| == 32 && regs[0] == 0 && regs[s.table] == c.value
    && Breaks(p, s, c, run, Line(p, s, c, s.Sltiu(), regs))
  }

  lemma PassedCheckBreaks(p: Program, entry: int, s: Suffix, c: Constant, r: seq<Word>) returns (run: seq<Cpu>)
    requires Accepted(p, entry, s, c) && s.jr % 4 == 0 && s.reject % 4 == 0 && BadIndex(s, c, r) && r[s.guard] != 0
    ensures Breaks(p, s, c, run, Line(p, s, c, s.Beq(), r))
  {
    run := ShiftBreaks(p, entry, s, c, r);
    Idles(p, s, c, r, s.Sll());
    run := Prepend(p, s, c, Line(p, s, c, s.Nop(), r), Line(p, s, c, s.Sll(), r), run);
    Branches(p, s, c, r);
    run := Prepend(p, s, c, Line(p, s, c, s.Beq(), r), Line(p, s, c, s.Nop(), r), run);
  }

  /** The guard overwrote the index and the table has one entry: index 0 passes as index 1. */
  lemma OverwrittenIndexBreaks(p: Program, entry: int, s: Suffix, c: Constant) returns (run: seq<Cpu>, r0: seq<Word>)
    requires Accepted(p, entry, s, c) && s.jr % 4 == 0 && s.reject % 4 == 0
    requires s.guard == s.index && s.count == 1 && s.guard != s.table
    ensures BreaksFromCheck(p, s, c, run, r0)
  {
    r0 := seq(32, i => 0)[s.table := c.value];
    var r1 := Set(r0, s.guard, 1);
    run := PassedCheckBreaks(p, entry, s, c, r1);
    Bounds(p, s, c, r0);
    run := Prepend(p, s, c, Line(p, s, c, s.Sltiu(), r0), Line(p, s, c, s.Beq(), r1), run);
  }

  /** The shift behind a delay slot that was entered as a branch target. */
  lemma SlotTwiceBreaks(p: Program, entry: int, s: Suffix, c: Constant, r: seq<Word>) returns (run: seq<Cpu>)
    requires Accepted(p, entry, s, c) && s.jr % 4 == 0 && s.reject == s.Nop() && BadIndex(s, c, r)
    ensures Breaks(p, s, c, run, Cpu(s.Nop(), s.Nop(), r, Hostile(p, s, c)))
  {
    run := ShiftBreaks(p, entry, s, c, r);
    Idles(p, s, c, r, s.Sll());
    run := Prepend(p, s, c, Line(p, s, c, s.Nop(), r), Line(p, s, c, s.Sll(), r), run);
    Idles(p, s, c, r, s.Nop());
    run := Prepend(p, s, c, Cpu(s.Nop(), s.Nop(), r, Hostile(p, s, c)), Line(p, s, c, s.Nop(), r), run);
  }

  /** The rejected edge targets the branch's own delay slot: a failed check runs into the dispatch. */
  lemma RejectedSlotBreaks(p: Program, entry: int, s: Suffix, c: Constant) returns (run: seq<Cpu>, r: seq<Word>)
    requires Accepted(p, entry, s, c) && s.jr % 4 == 0 && s.reject == s.Nop() && s.guard != s.index && s.guard != s.table
    requires s.index == s.table ==> Wrap(4 * (c.value as int)) >= 4 * s.count
    ensures BreaksFromCheck(p, s, c, run, r)
  {
    r := seq(32, i => 0)[s.index := s.count][s.table := c.value];
    if s.index == s.table && c.value < s.count { SmallScale(c.value, s.count); }
    run := FailedCheckBreaks(p, entry, s, c, r);
    Bounds(p, s, c, r);
    assert Set(r, s.guard, 0) == r;
    run := Prepend(p, s, c, Line(p, s, c, s.Sltiu(), r), Line(p, s, c, s.Beq(), r), run);
  }

  lemma FailedCheckBreaks(p: Program, entry: int, s: Suffix, c: Constant, r: seq<Word>) returns (run: seq<Cpu>)
    requires Accepted(p, entry, s, c) && s.jr % 4 == 0 && s.reject == s.Nop() && BadIndex(s, c, r) && r[s.guard] == 0
    ensures Breaks(p, s, c, run, Line(p, s, c, s.Beq(), r))
  {
    run := SlotTwiceBreaks(p, entry, s, c, r);
    Branches(p, s, c, r);
    run := Prepend(p, s, c, Line(p, s, c, s.Beq(), r), Cpu(s.Nop(), s.Nop(), r, Hostile(p, s, c)), run);
  }

  lemma BreakingIsUnsound(p: Program, s: Suffix, c: Constant, run: seq<Cpu>, regs: seq<Word>)
    requires BreaksFromCheck(p, s, c, run, regs) && 1 !in TargetsOf(p, s, c) && s.jr % 4 == 0
    requires s.jr == s.lw + 4 || s.jr == s.lw + 8
    ensures !CoreSound(p, s, c)
  {
    forall i | 0 <= i < |run| && run[i].pc == s.lw ensures Intact(p, s, c, run[i]) {
      HostileIsIntact(p, s, c, run[i]);
    }
    assert CoreRun(p, s, c, run) && !Lands(p, s, c, run[|run|-1]);
  }

  lemma OddIsNoTarget(p: Program, entry: int, hardCap: int, lo: int, hi: int, s: Suffix, c: Constant)
    requires TableFits(p, entry, hardCap, lo, hi, s, c)
    ensures 1 !in TargetsOf(p, s, c)
  {
    forall k: nat | k < s.count ensures TableWord(p, s, c, k).Some? && TableWord(p, s, c, k).value.word != 1 {
      assert EntryFits(p, entry, hardCap, lo, hi, TableWord(p, s, c, k));
    }
  }

  lemma GuardIsNoTable(p: Program, s: Suffix, c: Constant)
    requires Shape(p, s) && Defined(p, s, c)
    ensures s.guard != s.table
  {
    assert IsSource(c.define + 4, s.Sltiu(), s.Addu());
    assert Leaves(p, s.Sltiu(), s.table);
  }

  /** The dispatch of an accepted switch is sound exactly when its bounds check guards it. */
  lemma GuardedExactly(p: Program, entry: int, hardCap: int, lo: int, hi: int, jr: int, reg: int, s: Suffix, c: Constant)
    requires Recognise(p, entry, hardCap, lo, hi, jr, reg) == Some((s, c)) && hi <= 0x1_0000_0000
    requires jr % 4 == 0 && s.reject % 4 == 0
    ensures CoreSound(p, s, c) <==> Guards(s, c)
  {
    RecognisedIsAccepted(p, entry, hardCap, lo, hi, jr, reg, s, c);
    if Guards(s, c) {
      GuardedIsSound(p, entry, s, c);
    } else {
      GuardIsNoTable(p, s, c);
      OddIsNoTarget(p, entry, hardCap, lo, hi, s, c);
      var run, regs;
      if s.guard == s.index {
        run, regs := OverwrittenIndexBreaks(p, entry, s, c);
      } else {
        run, regs := RejectedSlotBreaks(p, entry, s, c);
      }
      BreakingIsUnsound(p, s, c, run, regs);
    }
  }
}
