/**
 The switch recogniser from the words alone: what it accepts is spelled out field by field, with every bound as a
 number, and it accepts exactly that.
 */
module JumpTableWords {
  import opened Prelude
  import opened BitWords
  import opened Mips
  import opened Machine
  import opened JumpTable
  import opened JumpTableSoundness
  import opened Reachability
  import opened Sorting

  // ---- The dispatch before the `jr` --------------------------------------------------

  /** `jr reg`, behind `lw reg, offset(address)` with at most a nop between. */
  predicate JumpsBy(p: Program, entry: int, hardCap: int, jr: int, reg: int, s: Suffix) {
    && entry <= jr < hardCap && 0 < reg < 32 && s.jr == jr && s.reg == reg && s.lw == (if IsNop(p(jr - 4)) then jr - 8 else jr - 4)
    && p(jr).Some? && var j := p(jr).value;
    && j.op == 0 && j.fn == 8 && j.rs == reg && j.rt == 0 && j.rd == 0 && j.sa == 0
    && p(s.lw).Some? && var l := p(s.lw).value;
    && l.op == 0x23 && l.rt == reg && l.rs == s.address != 0 && Signed(l) == s.offset
  }

  /** `sll scaled, index, 2` and `addu address, scaled, table`, the inputs in either order. */
  predicate AddressedBy(p: Program, s: Suffix) {
    && p(s.lw - 4).Some? && p(s.lw - 8).Some?
    && var a, h := p(s.lw - 4).value, p(s.lw - 8).value;
    && a.op == 0 && a.fn == 0x21 && a.sa == 0 && a.rd == s.address
    && ((a.rs == s.scaled && a.rt == s.table) || (a.rs == s.table && a.rt == s.scaled))
    && h.op == 0 && h.fn == 0 && h.rs == 0 && h.sa == 2 && h.rd == s.scaled && h.rt == s.index
    && s.scaled != 0 && s.index != 0 && s.table != 0 && s.table != s.scaled
  }

  /** `sltiu guard, index, count`, `beq guard, r0, reject` and a nop, for one to 511 entries. */
  predicate CheckedBy(p: Program, entry: int, hardCap: int, s: Suffix) {
    && IsNop(p(s.lw - 12)) && p(s.lw - 16).Some? && p(s.lw - 20).Some?
    && var b, g := p(s.lw - 16).value, p(s.lw - 20).value;
    && g.op == 0x0B && g.rs == s.index && g.rt == s.guard != 0 && g.imm == s.count && 1 <= s.count <= 511
    && b.op == 4 && ((b.rs == 0 && b.rt == s.guard) || (b.rs == s.guard && b.rt == 0)) && b.flow == Branch(s.reject)
    && entry <= s.reject < hardCap && !(s.lw - 8 <= s.reject < s.jr + 8)
  }

  predicate Dispatches(p: Program, entry: int, hardCap: int, jr: int, reg: int, s: Suffix) {
    JumpsBy(p, entry, hardCap, jr, reg, s) && AddressedBy(p, s) && CheckedBy(p, entry, hardCap, s)
  }

  lemma DispatchIsMatched(p: Program, entry: int, hardCap: int, jr: int, reg: int, s: Suffix)
    requires Dispatches(p, entry, hardCap, jr, reg, s)
    ensures MatchSuffix(p, entry, hardCap, jr, reg) == Some(s)
  {
  }

  lemma MatchIsDispatch(p: Program, entry: int, hardCap: int, jr: int, reg: int)
    requires MatchSuffix(p, entry, hardCap, jr, reg).Some?
    ensures Dispatches(p, entry, hardCap, jr, reg, MatchSuffix(p, entry, hardCap, jr, reg).value)
  {
  }

  // ---- The table's address --------------------------------------------------------------

  /** The last word before `before` that writes the register, within 32 words and the function. */
  ghost predicate LastWriter(p: Program, entry: int, reg: int, before: int, w: int) {
    && entry <= w < before && before - w <= 0x80 && (before - w) % 4 == 0
    && p(w).Some? && WritesGpr(p(w).value, reg)
    && forall a :: w < a < before && (before - a) % 4 == 0 ==> p(a).Some? && !WritesGpr(p(a).value, reg)
  }

  predicate LoadsUpper(i: Insn, reg: int) { i.op == 0x0F && i.rs == 0 && i.rt == reg }

  /** The table's address is a `lui` of its register, or a `lui` of some register and an `addiu` from that one. */
  ghost predicate AddressIs(p: Program, entry: int, s: Suffix, c: Constant) {
    && LastWriter(p, entry, s.table, s.lw - 4, c.define) && c.upper == UpperOf(p, c)
    && if LoadsUpper(p(c.define).value, s.table) then
         c.constant == c.define && c.up == s.table && c.value == c.upper
       else
         var i := p(c.define).value;
         && i.op == 9 && i.rt == s.table && i.rs == c.up != 0
         && LastWriter(p, entry, c.up, c.define, c.constant) && LoadsUpper(p(c.constant).value, c.up)
         && c.value == (c.upper + Signed(i)) % 0x1_0000_0000
  }

  function UpperOf(p: Program, c: Constant): Word { if p(c.constant).None? then 0 else p(c.constant).value.imm * 0x1_0000 }

  lemma {:induction false} WriterIsNearest(p: Program, reg: int, pc: int, floor: int, w: int)
    requires floor <= w <= pc && (pc - w) % 4 == 0 && p(w).Some? && WritesGpr(p(w).value, reg)
    requires forall a :: w < a <= pc && (pc - a) % 4 == 0 ==> p(a).Some? && !WritesGpr(p(a).value, reg)
    ensures NearestWriter(p, reg, pc, floor) == Some(w)
    decreases pc - floor
  {
    if pc != w {
      assert p(pc).Some? && !WritesGpr(p(pc).value, reg);
      WriterIsNearest(p, reg, pc - 4, floor, w);
    }
  }

  lemma LastWriterIs(p: Program, entry: int, reg: int, before: int, w: int)
    requires LastWriter(p, entry, reg, before, w)
    ensures WriterBefore(p, entry, reg, before) == Some(w)
  {
    WriterIsNearest(p, reg, before - 4, Max(entry, before - 0x80), w);
  }

  lemma WriterIsLast(p: Program, entry: int, reg: int, before: int)
    requires WriterBefore(p, entry, reg, before).Some?
    ensures LastWriter(p, entry, reg, before, WriterBefore(p, entry, reg, before).value)
  {
    var w := WriterBefore(p, entry, reg, before).value;
    NearestLeaves(p, reg, before - 4, Max(entry, before - 0x80));
    forall a | w < a < before && (before - a) % 4 == 0 ensures p(a).Some? && !WritesGpr(p(a).value, reg) {
      assert IsSource(w + 4, a, before);
      assert Leaves(p, a, reg);
    }
  }

  lemma AddressIsConstant(p: Program, entry: int, s: Suffix, c: Constant)
    requires AddressIs(p, entry, s, c)
    ensures TableConstant(p, entry, s.table, s.Addu()) == Some(c)
  {
    LastWriterIs(p, entry, s.table, s.Addu(), c.define);
    if !LoadsUpper(p(c.define).value, s.table) { LastWriterIs(p, entry, c.up, c.define, c.constant); }
  }

  lemma ConstantIsAddress(p: Program, entry: int, s: Suffix)
    requires TableConstant(p, entry, s.table, s.Addu()).Some?
    ensures AddressIs(p, entry, s, TableConstant(p, entry, s.table, s.Addu()).value)
  {
    var c := TableConstant(p, entry, s.table, s.Addu()).value;
    WriterIsLast(p, entry, s.table, s.Addu());
    if !LoadsUpper(p(c.define).value, s.table) { WriterIsLast(p, entry, p(c.define).value.rs, c.define); }
  }

  // ---- The line and the table ---------------------------------------------------------------

  /** From the `lui` to the shift nothing but the bounds branch transfers control, and the `lui` is in no delay slot. */
  ghost predicate InLine(p: Program, entry: int, s: Suffix, c: Constant) {
    && (forall a :: c.constant < a < s.lw - 8 && (a - c.constant) % 4 == 0 ==>
         p(a).Some? && (p(a).value.flow.Normal? || a == s.lw - 16))
    && (c.constant >= entry + 4 && p(c.constant - 4).Some? ==> p(c.constant - 4).value.flow.Normal?)
  }

  lemma LineIsStraight(p: Program, entry: int, s: Suffix, c: Constant)
    ensures InLine(p, entry, s, c) <==> Straight(p, entry, s, c)
  {
    if InLine(p, entry, s, c) {
      forall a | c.constant < a < s.Sll() && IsSource(c.constant + 4, a, s.Sll())
        ensures p(a).Some? && (Transfers(p(a)) ==> a == s.Beq())
      {
        assert (a - c.constant) % 4 == 0;
      }
    }
    if Straight(p, entry, s, c) {
      forall a | c.constant < a < s.lw - 8 && (a - c.constant) % 4 == 0
        ensures p(a).Some? && (p(a).value.flow.Normal? || a == s.lw - 16)
      {
        assert IsSource(c.constant + 4, a, s.Sll());
      }
    }
  }

  /** The address of the first entry. */
  function TableAt(s: Suffix, c: Constant): int { (c.value + s.offset) % 0x1_0000_0000 }

  /** The entry is an aligned address of the function and the producer with a valid word. */
  predicate IsCase(p: Program, entry: int, hardCap: int, lo: int, hi: int, at: int) {
    && p(at).Some? && var t := p(at).value.word;
    && t % 4 == 0 && entry <= t < hardCap && lo <= t < hi && p(t).Some? && p(t).value.valid
  }

  ghost predicate AllCases(p: Program, entry: int, hardCap: int, lo: int, hi: int, s: Suffix, c: Constant) {
    && TableAt(s, c) % 4 == 0 && lo <= TableAt(s, c) && TableAt(s, c) + 4 * s.count <= hi
    && forall k: nat :: k < s.count ==> IsCaseAt(p, entry, hardCap, lo, hi, s, c, k)
  }

  predicate IsCaseAt(p: Program, entry: int, hardCap: int, lo: int, hi: int, s: Suffix, c: Constant, k: nat) {
    IsCase(p, entry, hardCap, lo, hi, TableAt(s, c) + 4 * k)
  }

  lemma CasesFit(p: Program, entry: int, hardCap: int, lo: int, hi: int, s: Suffix, c: Constant)
    ensures AllCases(p, entry, hardCap, lo, hi, s, c) <==> TableFits(p, entry, hardCap, lo, hi, s, c)
  {
    forall k: nat ensures IsCaseAt(p, entry, hardCap, lo, hi, s, c, k) <==> EntryFits(p, entry, hardCap, lo, hi, TableWord(p, s, c, k)) { }
  }

  // ---- The whole switch -----------------------------------------------------------------------

  /** A switch in the words, from the `lui` to the `jr`. */
  ghost predicate IsSwitch(p: Program, entry: int, hardCap: int, lo: int, hi: int, jr: int, reg: int, s: Suffix, c: Constant) {
    && Dispatches(p, entry, hardCap, jr, reg, s) && AddressIs(p, entry, s, c) && InLine(p, entry, s, c)
    && AllCases(p, entry, hardCap, lo, hi, s, c)
  }

  lemma RecognisedExactly(p: Program, entry: int, hardCap: int, lo: int, hi: int, jr: int, reg: int, s: Suffix, c: Constant)
    ensures Recognise(p, entry, hardCap, lo, hi, jr, reg) == Some((s, c)) <==> IsSwitch(p, entry, hardCap, lo, hi, jr, reg, s, c)
  {
    if Recognise(p, entry, hardCap, lo, hi, jr, reg) == Some((s, c)) {
      MatchIsDispatch(p, entry, hardCap, jr, reg);
      ConstantIsAddress(p, entry, s);
      LineIsStraight(p, entry, s, c);
      CasesFit(p, entry, hardCap, lo, hi, s, c);
    }
    if IsSwitch(p, entry, hardCap, lo, hi, jr, reg, s, c) {
      DispatchIsMatched(p, entry, hardCap, jr, reg, s);
      AddressIsConstant(p, entry, s, c);
      LineIsStraight(p, entry, s, c);
      CasesFit(p, entry, hardCap, lo, hi, s, c);
    }
  }

  // ---- Edges into it ----------------------------------------------------------------------------

  /** No listed word of the function but the line's own and the cases' transfers control behind the `lui`. */
  ghost predicate Undisturbed(p: Program, entry: int, hardCap: int, s: Suffix, c: Constant, reached: set<int>) {
    forall a :: entry <= a < hardCap && (a - entry) % 4 == 0 ==> p(a).Some? && EdgeStaysOut(p(a).value, a, s, c, reached)
  }

  predicate EdgeStaysOut(i: Insn, a: int, s: Suffix, c: Constant, reached: set<int>) {
    match i.flow
    case Branch(t) => c.constant < t <= s.jr ==> c.constant <= a <= s.jr || a in reached
    case Jump(t) => c.constant < t <= s.jr ==> c.constant <= a <= s.jr || a in reached
    case Call(t) => c.constant < t <= s.jr ==> c.constant <= a <= s.jr || a in reached
    case _ => true
  }

  lemma UndisturbedIsNoStray(p: Program, entry: int, hardCap: int, s: Suffix, c: Constant, reached: set<int>)
    ensures Undisturbed(p, entry, hardCap, s, c, reached) <==> NoStray(p, entry, hardCap, s, c, reached)
  {
    forall a | IsSource(entry, a, hardCap)
      ensures (p(a).Some? && EdgeStaysOut(p(a).value, a, s, c, reached)) <==> !StrayAt(p, s, c, reached, a)
    {
      assert EdgesOf(p)(a) == DirectTarget(p(a));
    }
  }

  /** The words in the table. */
  ghost predicate InTable(p: Program, s: Suffix, c: Constant, t: int) {
    exists k: nat :: k < s.count && p(TableAt(s, c) + 4 * k).Some? && p(TableAt(s, c) + 4 * k).value.word == t
  }

  lemma InTableIsTarget(p: Program, s: Suffix, c: Constant, t: int)
    ensures InTable(p, s, c, t) <==> t in TargetsOf(p, s, c)
  {
    if InTable(p, s, c, t) {
      var k: nat :| k < s.count && p(TableAt(s, c) + 4 * k).Some? && p(TableAt(s, c) + 4 * k).value.word == t;
      assert TableWord(p, s, c, k) == p(TableAt(s, c) + 4 * k);
    }
    if t in TargetsOf(p, s, c) {
      var k: nat :| k < s.count && TableWord(p, s, c, k).Some? && TableWord(p, s, c, k).value.word == t;
      assert TableWord(p, s, c, k) == p(TableAt(s, c) + 4 * k);
    }
  }

  /** The answer for a switch is the words of its table if nothing disturbs it, and otherwise nothing. */
  lemma SwitchIsAnswered(p: Program, entry: int, hardCap: int, lo: int, hi: int, jr: int, reg: int, s: Suffix, c: Constant, t: int)
    requires IsSwitch(p, entry, hardCap, lo, hi, jr, reg, s, c)
    ensures t in JumpTargets(p, entry, hardCap, lo, hi, jr, reg) <==>
      && Undisturbed(p, entry, hardCap, s, c, CasesOf(p, CaseWindow(entry, hardCap, lo, hi), TargetsOf(p, s, c)))
      && InTable(p, s, c, t)
  {
    RecognisedExactly(p, entry, hardCap, lo, hi, jr, reg, s, c);
    UndisturbedIsNoStray(p, entry, hardCap, s, c, CasesOf(p, CaseWindow(entry, hardCap, lo, hi), TargetsOf(p, s, c)));
    InTableIsTarget(p, s, c, t);
  }

  /** Where there is no switch in the words there is no answer. */
  lemma NothingElseIsAnswered(p: Program, entry: int, hardCap: int, lo: int, hi: int, jr: int, reg: int)
    requires forall s, c :: !IsSwitch(p, entry, hardCap, lo, hi, jr, reg, s, c)
    ensures JumpTargets(p, entry, hardCap, lo, hi, jr, reg) == {}
  {
    if Recognise(p, entry, hardCap, lo, hi, jr, reg).Some? {
      var (s, c) := Recognise(p, entry, hardCap, lo, hi, jr, reg).value;
      RecognisedExactly(p, entry, hardCap, lo, hi, jr, reg, s, c);
    }
  }

  // ---- What the cases reach ------------------------------------------------------------------------

  /** Where the walk from the cases goes on, kind by kind: a call comes back behind its slot, a register jump leads nowhere. */
  predicate CaseGoesOn(i: Insn, a: int, b: int) {
    match i.flow
    case Normal => b == a + 4
    case Branch(t) => b == a + 8 || b == t
    case BranchNever => b == a + 8
    case BranchNeverLikely => b == a + 8
    case Jump(t) => b == t
    case Call(_) => b == a + 8
    case CallRegister => b == a + 8
    case JumpRegister => false
    case Return => false
  }

  /** The word behind the transfer runs with it. */
  predicate CaseSlotted(i: Insn) { !i.flow.Normal? && !i.flow.BranchNeverLikely? }

  lemma CaseEdges(i: Insn, a: int, b: int)
    ensures CaseGoesOn(i, a, b) <==> b in CaseSuccessors(i, a)
    ensures DelaySlot(i, a) == if CaseSlotted(i) then {a + 4} else {}
  {
  }

  /** A valid word of the window. */
  predicate Walkable(p: Program, w: CaseWindow, a: int) {
    w.entry <= a < w.hardCap && w.lo <= a < w.hi && p(a).Some? && p(a).value.valid
  }

  function CaseNext(p: Program, w: CaseWindow): Successors {
    a => if p(a).None? then {} else set b | w.entry <= b < w.hardCap && Walkable(p, w, b) && CaseGoesOn(p(a).value, a, b)
  }

  function CaseSlots(p: Program): Successors { a => if p(a).Some? && CaseSlotted(p(a).value) then {a + 4} else {} }

  ghost predicate CaseState(p: Program, w: CaseWindow, targets: set<int>, reached: set<int>, expanded: set<int>, work: seq<int>) {
    && Follows(CaseNext(p, w), CaseSlots(p), reached, expanded, work)
    && (forall a :: a in expanded ==> Walkable(p, w, a))
    && forall t :: t in targets && Walkable(p, w, t) ==> t in reached || t in work
  }

  lemma CaseDrops(p: Program, w: CaseWindow, targets: set<int>, reached: set<int>, expanded: set<int>, work: seq<int>)
    requires CaseState(p, w, targets, reached, expanded, work) && work != [] && !w.Visits(p, reached, work[0])
    ensures CaseState(p, w, targets, reached, expanded, work[1..])
  {
    assert work == [work[0]] + work[1..];
    FollowsDrops(CaseNext(p, w), CaseSlots(p), reached, expanded, work);
  }

  /** The work list gets every edge of the word, and the mark is the word with its slot. */
  lemma CaseStep(p: Program, w: CaseWindow, reached: set<int>, pc: int)
    requires p(pc).Some?
    ensures forall b :: b in CaseNext(p, w)(pc) ==> b in CaseSuccessors(p(pc).value, pc)
    ensures Mark(p, reached, pc) == reached + {pc} + CaseSlots(p)(pc)
  {
    forall b | b in CaseNext(p, w)(pc) ensures b in CaseSuccessors(p(pc).value, pc) { CaseEdges(p(pc).value, pc, b); }
    CaseEdges(p(pc).value, pc, pc);
  }

  lemma CaseFollows(p: Program, w: CaseWindow, reached: set<int>, expanded: set<int>, work: seq<int>, more: seq<int>)
    requires Follows(CaseNext(p, w), CaseSlots(p), reached, expanded, work) && work != []
    requires forall b :: b in CaseNext(p, w)(work[0]) ==> b in more
    ensures Follows(CaseNext(p, w), CaseSlots(p), reached + {work[0]} + CaseSlots(p)(work[0]), expanded + {work[0]}, work[1..] + more)
  {
    FollowsVisits(CaseNext(p, w), CaseSlots(p), reached, expanded, work, more);
  }

  lemma CaseExpands(p: Program, w: CaseWindow, targets: set<int>, reached: set<int>, expanded: set<int>, work: seq<int>)
    requires CaseState(p, w, targets, reached, expanded, work) && work != [] && w.Visits(p, reached, work[0])
    ensures CaseState(p, w, targets, Mark(p, reached, work[0]), expanded + {work[0]},
                      work[1..] + CaseSuccessors(p(work[0]).value, work[0]))
  {
    var pc := work[0];
    assert work == [pc] + work[1..];
    CaseStep(p, w, reached, pc);
    CaseFollows(p, w, reached, expanded, work, CaseSuccessors(p(pc).value, pc));
  }

  lemma {:induction false} CasesEnd(p: Program, w: CaseWindow, targets: set<int>, reached: set<int>, expanded: set<int>, work: seq<int>)
    returns (last: set<int>)
    requires CaseState(p, w, targets, reached, expanded, work)
    ensures |CasesFrom(p, w, reached, work)| < CASE_LIMIT ==> CaseState(p, w, targets, CasesFrom(p, w, reached, work), last, [])
    decreases CASE_LIMIT - |reached|, |work|
  {
    last := expanded;
    if work != [] && |reached| < CASE_LIMIT {
      if !w.Visits(p, reached, work[0]) {
        CaseDrops(p, w, targets, reached, expanded, work);
        last := CasesEnd(p, w, targets, reached, expanded, work[1..]);
      } else {
        CaseExpands(p, w, targets, reached, expanded, work);
        MarksMore(p, reached, work[0]);
        last := CasesEnd(p, w, targets, Mark(p, reached, work[0]), expanded + {work[0]},
                         work[1..] + CaseSuccessors(p(work[0]).value, work[0]));
      }
    }
  }

  ghost predicate KeptIn(p: Program, w: CaseWindow, reached: set<int>, a: int, i: Insn) {
    (forall b :: Walkable(p, w, b) && CaseGoesOn(i, a, b) ==> b in reached) && (CaseSlotted(i) ==> a + 4 in reached)
  }

  /** All that the cases' own words lead to is reached, and the rest are delay slots. */
  ghost predicate CasesClosed(p: Program, w: CaseWindow, targets: set<int>, reached: set<int>, expanded: set<int>) {
    && (forall t :: t in targets && Walkable(p, w, t) ==> t in reached)
    && (forall a :: a in expanded ==> a in reached && Walkable(p, w, a) && KeptIn(p, w, reached, a, p(a).value))
    && forall a :: a in reached ==> a in expanded || (a - 4 in expanded && p(a - 4).Some? && CaseSlotted(p(a - 4).value))
  }

  lemma ExpandedKept(p: Program, w: CaseWindow, reached: set<int>, expanded: set<int>, a: int)
    requires Follows(CaseNext(p, w), CaseSlots(p), reached, expanded, []) && a in expanded && p(a).Some?
    ensures a in reached && KeptIn(p, w, reached, a, p(a).value)
  {
    assert Reachability.Expanded(CaseNext(p, w), CaseSlots(p), reached, [], a);
    forall b | Walkable(p, w, b) && CaseGoesOn(p(a).value, a, b) ensures b in reached {
      assert b in CaseNext(p, w)(a);
    }
    if CaseSlotted(p(a).value) { assert a + 4 in CaseSlots(p)(a); }
  }

  /** A walk that marks fewer than 2048 addresses has followed everything. */
  lemma CasesAreClosed(p: Program, w: CaseWindow, targets: set<int>) returns (expanded: set<int>)
    ensures |CasesOf(p, w, targets)| < 2048 ==> CasesClosed(p, w, targets, CasesOf(p, w, targets), expanded)
  {
    var work := Sorted(targets);
    forall t | t in targets ensures t in work { assert t in ToSet(work); }
    expanded := CasesEnd(p, w, targets, {}, {}, work);
    var reached := CasesOf(p, w, targets);
    if |reached| < CASE_LIMIT {
      forall a | a in expanded ensures a in reached && Walkable(p, w, a) && KeptIn(p, w, reached, a, p(a).value) {
        ExpandedKept(p, w, reached, expanded, a);
      }
      forall a | a in reached ensures a in expanded || (a - 4 in expanded && p(a - 4).Some? && CaseSlotted(p(a - 4).value)) {
        assert a in expanded || InSlot(CaseSlots(p), expanded, a);
      }
    }
  }

  /**
   The whole answer: an address is returned exactly when there is a switch in the words, nothing but the line itself and
   what its cases reach disturbs it, and its table holds the address.
   */
  lemma AnswerIsExact(p: Program, entry: int, hardCap: int, lo: int, hi: int, jr: int, reg: int, t: int)
    ensures t in JumpTargets(p, entry, hardCap, lo, hi, jr, reg) <==>
      exists s, c :: Answers(p, entry, hardCap, lo, hi, jr, reg, s, c, t)
  {
    var found := Recognise(p, entry, hardCap, lo, hi, jr, reg);
    if t in JumpTargets(p, entry, hardCap, lo, hi, jr, reg) {
      var (s, c) := found.value;
      RecognisedExactly(p, entry, hardCap, lo, hi, jr, reg, s, c);
      SwitchIsAnswered(p, entry, hardCap, lo, hi, jr, reg, s, c, t);
      assert Answers(p, entry, hardCap, lo, hi, jr, reg, s, c, t);
    }
    if exists s, c :: Answers(p, entry, hardCap, lo, hi, jr, reg, s, c, t) {
      var s, c :| Answers(p, entry, hardCap, lo, hi, jr, reg, s, c, t);
      SwitchIsAnswered(p, entry, hardCap, lo, hi, jr, reg, s, c, t);
    }
  }

  ghost predicate Answers(p: Program, entry: int, hardCap: int, lo: int, hi: int, jr: int, reg: int, s: Suffix, c: Constant, t: int) {
    && IsSwitch(p, entry, hardCap, lo, hi, jr, reg, s, c) && InTable(p, s, c, t)
    && Undisturbed(p, entry, hardCap, s, c, CasesOf(p, CaseWindow(entry, hardCap, lo, hi), TargetsOf(p, s, c)))
  }
}
