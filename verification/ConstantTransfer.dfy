/**
 _resolve_constant_transfer: the constant a `lui` and an optional `addiu` or `ori` leave in the
 target register of a `jr` or `jalr`.
 */
module ConstantTransfer {
  import opened Prelude
  import opened BitWords
  import opened Mips
  import opened Machine

  /** What a word is to the scan for one register; `inert` low halves exist for r0 only. */
  datatype Role = Upper | Low(inert: bool) | Inert | Stop

  function Back(p: Program, transfer: int, k: nat): Option<Insn> { p(transfer - 4 * k) }

  function RoleOf(i: Option<Insn>, reg: int): Role {
    if i.None? then Stop
    else if IsLui(i.value) && i.value.rt == reg then Upper
    else if (IsAddiu(i.value) || IsOri(i.value)) && i.value.rs == reg && i.value.rt == reg then Low(reg == 0)
    else if WritesGpr(i.value, reg) || Transfers(i) then Stop
    else Inert
  }

  /** The roles of the instructions before the transfer, by distance. */
  type Roles = nat -> Role

  function RolesOf(p: Program, transfer: int, reg: int): Roles {
    (k: nat) => RoleOf(Back(p, transfer, k), reg)
  }

  /** Distances in words to the `lui` and to the low half; `low == 0` for no low half. */
  datatype Pair = Pair(upper: nat, low: nat)

  /** The word `k` before the transfer leaves the register alone, or is the one low half. */
  predicate Passes(roles: Roles, low: nat, k: nat) {
    if k == low then roles(k).Low?
    else roles(k).Inert? || (roles(k).Low? && roles(k).inert && 0 < low < k)
  }

  /** The pair is the nearest definition of the register within sixteen words. */
  ghost predicate Reaching(roles: Roles, pair: Pair) {
    && 1 <= pair.upper <= 16 && pair.low < pair.upper && roles(pair.upper).Upper?
    && forall k :: 0 < k < pair.upper ==> Passes(roles, pair.low, k)
  }

  ghost predicate NoLateEdge(edges: Edges, entry: int, lui: int, transfer: int) {
    forall source :: IsSource(entry, source, transfer) ==> !Lands(edges, source, lui, transfer)
  }

  /** The `lui` is in no delay slot and no direct edge from an earlier function address lands after it. */
  ghost predicate Entered(p: Program, entry: int, lui: int, transfer: int) {
    && lui >= entry && !(lui >= entry + 4 && Transfers(p(lui - 4)))
    && NoLateEdge(EdgesOf(p), entry, lui, transfer)
  }

  ghost predicate Resolves(p: Program, entry: int, transfer: int, reg: int, pair: Pair) {
    Reaching(RolesOf(p, transfer, reg), pair) && Entered(p, entry, transfer - 4 * pair.upper, transfer)
  }

  function UpperValue(i: Option<Insn>): Word { if i.None? then 0 else i.value.imm * 0x1_0000 }

  /** The upper half with a low half added or or-ed in, modulo 2^32. */
  function Combine(upper: Word, low: Option<Insn>): Word {
    if low.None? then upper
    else if IsAddiu(low.value) then Wrap((upper as int) + Signed(low.value))
    else OrWords(upper, low.value.imm)
  }

  function Value(p: Program, transfer: int, pair: Pair): Word {
    Combine(UpperValue(Back(p, transfer, pair.upper)), if pair.low == 0 then None else Back(p, transfer, pair.low))
  }

  /** No two pairs define the register at the transfer. */
  lemma OnePair(roles: Roles, a: Pair, b: Pair)
    requires Reaching(roles, a) && Reaching(roles, b)
    ensures a == b
  {
    assert a.low > 0 ==> Passes(roles, a.low, a.low);
    assert b.low > 0 ==> Passes(roles, b.low, b.low);
    forall k | 0 < k < b.upper ensures Passes(roles, b.low, k) && !roles(k).Upper? {}
    forall k | 0 < k < a.upper ensures Passes(roles, a.low, k) && !roles(k).Upper? {}
    assert a.upper == b.upper;
    assert a.low > 0 ==> Passes(roles, b.low, a.low);
    assert b.low > 0 ==> Passes(roles, a.low, b.low);
  }

  /** The constant the register holds at the transfer, if one pair defines it. */
  ghost function ConstantOf(p: Program, entry: int, transfer: int, reg: int): Option<Word> {
    if exists pair :: Resolves(p, entry, transfer, reg, pair) then
      var pair :| Resolves(p, entry, transfer, reg, pair);
      Some(Value(p, transfer, pair))
    else None
  }

  lemma TheConstant(p: Program, entry: int, transfer: int, reg: int, pair: Pair)
    requires Resolves(p, entry, transfer, reg, pair)
    ensures ConstantOf(p, entry, transfer, reg) == Some(Value(p, transfer, pair))
  {
    forall other | Resolves(p, entry, transfer, reg, other) ensures other == pair {
      OnePair(RolesOf(p, transfer, reg), pair, other);
    }
  }

  // ---- The scan ----------------------------------------------------------

  ghost predicate Scanned(roles: Roles, low: nat, count: nat) {
    low < count && forall k :: 0 < k < count ==> Passes(roles, low, k)
  }

  /** No pair ends before the scanned words do, and a word that stops the scan can only be the `lui`. */
  lemma ScanStops(roles: Roles, low: nat, count: nat, pair: Pair)
    requires count >= 1 && Scanned(roles, low, count) && Reaching(roles, pair)
    ensures pair.upper >= count
    ensures roles(count).Upper? ==> pair == Pair(count, low)
    ensures !roles(count).Upper? ==> pair.upper > count
    ensures !(low == 0 && roles(count).Low?) && !roles(count).Upper? ==> Passes(roles, low, count)
  {
    assert low > 0 ==> Passes(roles, low, low);
    assert pair.low > 0 ==> Passes(roles, pair.low, pair.low);
    forall k | 0 < k < count ensures !roles(k).Upper? { assert Passes(roles, low, k); }
    if low > 0 && low < pair.upper { assert Passes(roles, pair.low, low); }
    if pair.low > 0 && pair.low < count { assert Passes(roles, low, pair.low); }
    if count < pair.upper { assert Passes(roles, pair.low, count); }
  }

  lemma TakeLow(roles: Roles, count: nat)
    requires count >= 1 && Scanned(roles, 0, count) && roles(count).Low?
    ensures Scanned(roles, count, count + 1)
  {
    forall k | 0 < k < count + 1 ensures Passes(roles, count, k) {
      if k < count { assert Passes(roles, 0, k); }
    }
  }

  lemma WalkOver(roles: Roles, low: nat, count: nat)
    requires Scanned(roles, low, count) && (roles(count).Inert? || (low > 0 && roles(count) == Low(true)))
    ensures Scanned(roles, low, count + 1)
  {
  }

  method HasNoLateEdge(edges: Edges, entry: int, lui: int, transfer: int) returns (ok: bool)
    ensures ok == NoLateEdge(edges, entry, lui, transfer)
  {
    var source := entry;
    while source < transfer
      invariant source >= entry && (source - entry) % 4 == 0
      invariant forall s :: IsSource(entry, s, transfer) && s < source ==> !Lands(edges, s, lui, transfer)
    {
      if Lands(edges, source, lui, transfer) {
        assert IsSource(entry, source, transfer);
        return false;
      }
      NextSource(entry, source, transfer);
      source := source + 4;
    }
    return true;
  }

  /** The next instruction of the scan, as the source tests it. */
  method ScanWord(next: Option<Insn>, low: Option<Insn>, reg: int) returns (role: Role)
    ensures role == if RoleOf(next, reg).Low? && low.Some? then (if reg == 0 then Inert else Stop) else RoleOf(next, reg)
  {
    if next.None? { return Stop; }
    var i := next.value;
    if low.None? && (IsAddiu(i) || IsOri(i)) && i.rs == reg && i.rt == reg { return Low(reg == 0); }
    if IsLui(i) && i.rt == reg { return Upper; }
    if WritesGpr(i, reg) || Transfers(next) { return Stop; }
    return Inert;
  }

  ghost predicate NoPair(p: Program, entry: int, transfer: int, reg: int) {
    forall q :: !Resolves(p, entry, transfer, reg, q)
  }

  lemma NothingFurther(p: Program, entry: int, transfer: int, reg: int, low: nat, count: nat)
    requires count >= 1 && Scanned(RolesOf(p, transfer, reg), low, count)
    requires
      || count > 16 || transfer - 4 * count < entry
      || (!RolesOf(p, transfer, reg)(count).Upper? && !(low == 0 && RolesOf(p, transfer, reg)(count).Low?)
          && !Passes(RolesOf(p, transfer, reg), low, count))
      || (RolesOf(p, transfer, reg)(count).Upper? && !Entered(p, entry, transfer - 4 * count, transfer))
    ensures NoPair(p, entry, transfer, reg)
  {
    forall q ensures !Resolves(p, entry, transfer, reg, q) {
      if Reaching(RolesOf(p, transfer, reg), q) {
        ScanStops(RolesOf(p, transfer, reg), low, count, q);
      }
    }
  }

  /** _resolve_constant_transfer */
  method ResolveConstantTransfer(p: Program, entry: int, transfer: int, reg: int)
    returns (r: Option<Word>, ghost pair: Pair)
    ensures r.Some? ==> Resolves(p, entry, transfer, reg, pair) && r.value == Value(p, transfer, pair)
    ensures r.None? ==> NoPair(p, entry, transfer, reg)
    ensures r == ConstantOf(p, entry, transfer, reg)
  {
    r, pair := None, Pair(0, 0);
    var low: Option<Insn> := None;
    ghost var at: nat := 0;
    ghost var roles := RolesOf(p, transfer, reg);
    var count := 1;
    while count < 17
      invariant 1 <= count <= 17 && Scanned(roles, at, count)
      invariant low == if at == 0 then None else Back(p, transfer, at)
      invariant at > 0 ==> low.Some?
    {
      var pc := transfer - 4 * count;
      if pc < entry {
        NothingFurther(p, entry, transfer, reg, at, count);
        return;
      }
      var word := p(pc);
      assert roles(count) == RoleOf(word, reg);
      var role := ScanWord(word, low, reg);
      match role {
        case Low(_) =>
          TakeLow(roles, count);
          low, at := word, count;
        case Upper =>
          var ok := HasNoLateEdge(EdgesOf(p), entry, pc, transfer);
          if (pc >= entry + 4 && Transfers(p(pc - 4))) || !ok {
            NothingFurther(p, entry, transfer, reg, at, count);
            return;
          }
          pair := Pair(count, at);
          TheConstant(p, entry, transfer, reg, pair);
          return Some(Combine(UpperValue(word), low)), pair;
        case Stop =>
          NothingFurther(p, entry, transfer, reg, at, count);
          return;
        case Inert =>
          WalkOver(roles, at, count);
      }
      count := count + 1;
    }
    NothingFurther(p, entry, transfer, reg, at, count);
  }

  // ---- Soundness over machine runs ---------------------------------------

  predicate Protected(lui: int, a: int, transfer: int) { lui < a <= transfer }

  /** An address whose outgoing edges the resolver did not look at: outside the scan, or a register jump. */
  predicate Unchecked(p: Program, entry: int, transfer: int, pc: int) {
    !IsSource(entry, pc, transfer) || p(pc).None? || p(pc).value.flow.CallRegister?
    || p(pc).value.flow.JumpRegister? || p(pc).value.flow.Return?
  }

  /** The step enters the protected words only in sequence. */
  predicate StaysOut(c: Cpu, d: Cpu, lui: int, transfer: int) {
    && (Protected(lui, d.npc, transfer) ==> d.npc == d.pc + 4)
    && (Protected(lui, d.pc, transfer) ==> d.pc == c.npc)
  }

  ghost predicate NoStrayEntry(p: Program, entry: int, lui: int, transfer: int, run: seq<Cpu>) {
    forall i :: 0 <= i < |run| - 1 ==> StrayFree(p, entry, lui, transfer, run, i)
  }

  predicate StrayFree(p: Program, entry: int, lui: int, transfer: int, run: seq<Cpu>, i: int)
    requires 0 <= i < |run| - 1
  {
    Unchecked(p, entry, transfer, run[i].pc) ==> StaysOut(run[i], run[i+1], lui, transfer)
  }

  predicate StartsOutside(c: Cpu, lui: int, transfer: int) {
    !Protected(lui, c.pc, transfer) && (Protected(lui, c.npc, transfer) ==> c.npc == c.pc + 4)
  }

  /** What the register holds just before the word at `pc`. */
  function HeldAt(p: Program, transfer: int, pair: Pair, pc: int): Word {
    if pair.low > 0 && pc > transfer - 4 * pair.low then Value(p, transfer, pair)
    else UpperValue(Back(p, transfer, pair.upper))
  }

  predicate Holds(p: Program, transfer: int, reg: int, pair: Pair, c: Cpu)
    requires IsCpu(c) && 0 < reg < 32
  {
    var lui := transfer - 4 * pair.upper;
    && (Protected(lui, c.pc, transfer) ==> c.regs[reg] == HeldAt(p, transfer, pair, c.pc))
    && (Protected(lui, c.npc, transfer) ==> c.npc == c.pc + 4)
  }

  /** A role other than `Stop` is a word in sequence, and what it does to the register. */
  lemma RoleEffect(i: Insn, reg: int, c: Cpu, d: Cpu)
    requires 0 < reg < 32 && IsCpu(c) && IsCpu(d) && Computes(i, c, d) && !RoleOf(Some(i), reg).Stop?
    ensures i.flow.Normal? && !(RoleOf(Some(i), reg).Low? && RoleOf(Some(i), reg).inert)
    ensures RoleOf(Some(i), reg).Upper? ==> d.regs[reg] == UpperValue(Some(i))
    ensures RoleOf(Some(i), reg).Low? ==> d.regs[reg] == Combine(c.regs[reg], Some(i))
    ensures RoleOf(Some(i), reg).Inert? ==> d.regs[reg] == c.regs[reg]
  {
    if RoleOf(Some(i), reg).Inert? {
      FrameRule(i, c, d, reg);
    }
  }

  /** From the `lui` on, the line goes on in sequence with the register as it should be. */
  lemma LineStep(p: Program, transfer: int, reg: int, pair: Pair, c: Cpu, d: Cpu)
    requires Reaching(RolesOf(p, transfer, reg), pair) && 0 < reg < 32 && transfer % 4 == 0
    requires Step(p, c, d) && Holds(p, transfer, reg, pair, c)
    requires transfer - 4 * pair.upper <= c.pc < transfer
    ensures d.regs[reg] == HeldAt(p, transfer, pair, c.pc + 4)
    ensures d.pc == c.npc && d.npc == d.pc + 4
  {
    var k := (transfer - c.pc) / 4;
    assert c.pc == transfer - 4 * k;
    var roles := RolesOf(p, transfer, reg);
    assert roles(k) == RoleOf(p(c.pc), reg);
    if k < pair.upper { assert Passes(roles, pair.low, k); }
    RoleEffect(p(c.pc).value, reg, c, d);
  }

  /** Before the `lui`, a checked step stays out of the protected words. */
  lemma CheckedStaysOut(p: Program, entry: int, lui: int, transfer: int, c: Cpu, d: Cpu)
    requires Entered(p, entry, lui, transfer) && lui < transfer && entry % 4 == 0 && lui % 4 == 0
    requires Step(p, c, d) && !Unchecked(p, entry, transfer, c.pc) && c.pc < lui
    requires Protected(lui, c.npc, transfer) ==> c.npc == c.pc + 4
    ensures !Protected(lui, d.pc, transfer) && (Protected(lui, d.npc, transfer) ==> d.npc == d.pc + 4)
  {
    var edges := EdgesOf(p);
    assert !Lands(edges, c.pc, lui, transfer);
    assert edges(c.pc) == DirectTarget(p(c.pc));
    if c.pc == lui - 4 { assert p(c.pc).value.flow.Normal?; }
  }

  lemma StepKeeps(p: Program, entry: int, transfer: int, reg: int, pair: Pair, c: Cpu, d: Cpu)
    requires Resolves(p, entry, transfer, reg, pair) && 0 < reg < 32 && entry % 4 == 0 && transfer % 4 == 0
    requires Step(p, c, d) && Holds(p, transfer, reg, pair, c)
    requires Unchecked(p, entry, transfer, c.pc) ==> StaysOut(c, d, transfer - 4 * pair.upper, transfer)
    ensures Holds(p, transfer, reg, pair, d)
  {
    var lui := transfer - 4 * pair.upper;
    if lui <= c.pc < transfer {
      LineStep(p, transfer, reg, pair, c, d);
    } else if !Unchecked(p, entry, transfer, c.pc) {
      CheckedStaysOut(p, entry, lui, transfer, c, d);
    }
  }

  /**
   On every machine run that starts outside the protected words, the register holds the returned
   constant whenever the transfer is reached, provided only that the edges the resolver does not look
   at (from outside the scanned addresses, and register jumps) do not land between the two.
   */
  lemma {:induction false} ArrivesWithConstant(p: Program, entry: int, transfer: int, reg: int, pair: Pair, run: seq<Cpu>)
    requires Resolves(p, entry, transfer, reg, pair) && 0 < reg < 32 && entry % 4 == 0 && transfer % 4 == 0
    requires IsRun(p, run) && run != [] && IsCpu(run[0]) && StartsOutside(run[0], transfer - 4 * pair.upper, transfer)
    requires NoStrayEntry(p, entry, transfer - 4 * pair.upper, transfer, run)
    ensures IsCpu(run[|run|-1]) && Holds(p, transfer, reg, pair, run[|run|-1])
    ensures run[|run|-1].pc == transfer ==> run[|run|-1].regs[reg] == Value(p, transfer, pair)
    decreases |run|
  {
    if |run| > 1 {
      var init, lui := run[..|run|-1], transfer - 4 * pair.upper;
      RunPrefix(p, run);
      forall i | 0 <= i < |init| - 1 ensures StrayFree(p, entry, lui, transfer, init, i) {
        assert StrayFree(p, entry, lui, transfer, run, i);
      }
      ArrivesWithConstant(p, entry, transfer, reg, pair, init);
      assert StepAt(p, run, |run| - 2);
      assert StrayFree(p, entry, lui, transfer, run, |run| - 2);
      StepKeeps(p, entry, transfer, reg, pair, run[|run|-2], run[|run|-1]);
    }
  }

  /** A branch that may skip the word behind it. */
  predicate Skips(i: Option<Insn>) {
    i.Some? && (i.value.flow.BranchNeverLikely? || (i.value.flow.Branch? && 0x14 <= i.value.op <= 0x17))
  }

  /** No listed instruction, wherever it is, transfers into the protected words, and none skips the `lui`. */
  ghost predicate Sealed(p: Program, lui: int, transfer: int) {
    && !Skips(p(lui - 4))
    && forall a :: a % 4 == 0 && p(a).Some? ==> !Lands(EdgesOf(p), a, lui, transfer)
  }

  /** An address whose next instruction is not in the listing: not listed itself, or a jump by a register. */
  predicate Unlisted(p: Program, pc: int) {
    p(pc).None? || p(pc).value.flow.CallRegister? || p(pc).value.flow.JumpRegister? || p(pc).value.flow.Return?
  }

  predicate UnlistedStaysOut(p: Program, lui: int, transfer: int, run: seq<Cpu>, i: int)
    requires 0 <= i < |run| - 1
  {
    Unlisted(p, run[i].pc) ==> StaysOut(run[i], run[i+1], lui, transfer)
  }

  ghost predicate UnlistedStayOut(p: Program, lui: int, transfer: int, run: seq<Cpu>) {
    forall i :: 0 <= i < |run| - 1 ==> UnlistedStaysOut(p, lui, transfer, run, i)
  }

  lemma SealedStaysOut(p: Program, lui: int, transfer: int, c: Cpu, d: Cpu)
    requires Sealed(p, lui, transfer) && lui < transfer && lui % 4 == 0 && transfer % 4 == 0
    requires Step(p, c, d) && !Unlisted(p, c.pc) && !(lui <= c.pc < transfer)
    requires Protected(lui, c.npc, transfer) ==> c.npc == c.pc + 4
    ensures StaysOut(c, d, lui, transfer)
  {
    var edges := EdgesOf(p);
    assert !Lands(edges, c.pc, lui, transfer);
    assert edges(c.pc) == DirectTarget(p(c.pc));
    if c.pc == lui - 4 { assert !Skips(p(c.pc)); }
  }

  lemma LineIsNormal(p: Program, transfer: int, reg: int, pair: Pair, a: int)
    requires Reaching(RolesOf(p, transfer, reg), pair) && transfer % 4 == 0
    requires transfer - 4 * pair.upper <= a < transfer && a % 4 == 0
    ensures p(a).Some? && p(a).value.flow.Normal?
  {
    var k, roles := (transfer - a) / 4, RolesOf(p, transfer, reg);
    assert a == transfer - 4 * k && roles(k) == RoleOf(p(a), reg);
    if k < pair.upper { assert Passes(roles, pair.low, k); }
  }

  lemma SealedStrayFree(p: Program, entry: int, transfer: int, reg: int, pair: Pair, c: Cpu, d: Cpu)
    requires Resolves(p, entry, transfer, reg, pair) && 0 < reg < 32 && transfer % 4 == 0
    requires Sealed(p, transfer - 4 * pair.upper, transfer) && Step(p, c, d) && Holds(p, transfer, reg, pair, c)
    requires Unlisted(p, c.pc) ==> StaysOut(c, d, transfer - 4 * pair.upper, transfer)
    ensures Unchecked(p, entry, transfer, c.pc) ==> StaysOut(c, d, transfer - 4 * pair.upper, transfer)
  {
    var lui := transfer - 4 * pair.upper;
    if lui <= c.pc < transfer {
      LineStep(p, transfer, reg, pair, c, d);
    } else if !Unlisted(p, c.pc) {
      SealedStaysOut(p, lui, transfer, c, d);
    }
  }

  lemma UnlistedPrefix(p: Program, lui: int, transfer: int, run: seq<Cpu>)
    requires run != [] && UnlistedStayOut(p, lui, transfer, run)
    ensures UnlistedStayOut(p, lui, transfer, run[..|run|-1])
  {
    var init := run[..|run|-1];
    forall i | 0 <= i < |init| - 1 ensures UnlistedStaysOut(p, lui, transfer, init, i) {
      assert UnlistedStaysOut(p, lui, transfer, run, i);
    }
  }

  lemma StrayFreeAppended(p: Program, entry: int, lui: int, transfer: int, run: seq<Cpu>)
    requires |run| > 1 && NoStrayEntry(p, entry, lui, transfer, run[..|run|-1])
    requires Unchecked(p, entry, transfer, run[|run|-2].pc) ==> StaysOut(run[|run|-2], run[|run|-1], lui, transfer)
    ensures NoStrayEntry(p, entry, lui, transfer, run)
  {
    var init := run[..|run|-1];
    forall i | 0 <= i < |run| - 1 ensures StrayFree(p, entry, lui, transfer, run, i) {
      if i < |run| - 2 { assert StrayFree(p, entry, lui, transfer, init, i); }
    }
  }

  lemma {:induction false} SealedHasNoStray(p: Program, entry: int, transfer: int, reg: int, pair: Pair, run: seq<Cpu>)
    requires Resolves(p, entry, transfer, reg, pair) && 0 < reg < 32 && entry % 4 == 0 && transfer % 4 == 0
    requires IsRun(p, run) && run != [] && IsCpu(run[0]) && StartsOutside(run[0], transfer - 4 * pair.upper, transfer)
    requires var lui := transfer - 4 * pair.upper; Sealed(p, lui, transfer) && UnlistedStayOut(p, lui, transfer, run)
    ensures NoStrayEntry(p, entry, transfer - 4 * pair.upper, transfer, run)
    decreases |run|
  {
    var lui := transfer - 4 * pair.upper;
    if |run| > 1 {
      var init, u, d := run[..|run|-1], run[|run|-2], run[|run|-1];
      assert IsRun(p, init) by { RunPrefix(p, run); }
      UnlistedPrefix(p, lui, transfer, run);
      SealedHasNoStray(p, entry, transfer, reg, pair, init);
      assert IsCpu(u) && Holds(p, transfer, reg, pair, u) by { ArrivesWithConstant(p, entry, transfer, reg, pair, init); }
      assert Step(p, u, d) by { assert StepAt(p, run, |run| - 2); }
      assert UnlistedStaysOut(p, lui, transfer, run, |run| - 2);
      SealedStrayFree(p, entry, transfer, reg, pair, u, d);
      StrayFreeAppended(p, entry, lui, transfer, run);
    }
  }

  /** The same when no edge of the listing, looked at or not, leads behind the `lui`: only unlisted code is asked to stay out. */
  lemma SealedArrivesWithConstant(p: Program, entry: int, transfer: int, reg: int, pair: Pair, run: seq<Cpu>)
    requires Resolves(p, entry, transfer, reg, pair) && 0 < reg < 32 && entry % 4 == 0 && transfer % 4 == 0
    requires IsRun(p, run) && run != [] && IsCpu(run[0]) && StartsOutside(run[0], transfer - 4 * pair.upper, transfer)
    requires var lui := transfer - 4 * pair.upper; Sealed(p, lui, transfer) && UnlistedStayOut(p, lui, transfer, run)
    ensures |run[|run|-1].regs| == 32
    ensures run[|run|-1].pc == transfer ==> run[|run|-1].regs[reg] == Value(p, transfer, pair)
  {
    SealedHasNoStray(p, entry, transfer, reg, pair, run);
    ArrivesWithConstant(p, entry, transfer, reg, pair, run);
  }

  // ---- What an edge into the line does ---------------------------------------

  /** A run in which unlisted code stays out, from anywhere outside the line to the transfer. */
  ghost predicate ReachesTransfer(p: Program, lui: int, transfer: int, run: seq<Cpu>) {
    && run != [] && IsRun(p, run) && IsCpu(run[0]) && StartsOutside(run[0], lui, transfer)
    && UnlistedStayOut(p, lui, transfer, run) && run[|run|-1].pc == transfer
  }

  predicate Ends(run: seq<Cpu>, reg: int, value: Word) {
    run != [] && 0 <= reg < |run[|run|-1].regs| && run[|run|-1].regs[reg] == value
  }

  /** The register holds the returned constant whenever such a run arrives. */
  ghost predicate AlwaysHolds(p: Program, transfer: int, reg: int, pair: Pair) {
    forall run: seq<Cpu> :: ReachesTransfer(p, transfer - 4 * pair.upper, transfer, run) ==>
      Ends(run, reg, Value(p, transfer, pair))
  }

  /** Neither a branch on whether the register is zero. */
  predicate AnyValue(i: Insn, reg: int) {
    IsBeq(i) ==> !(i.rs == reg && i.rt == 0) && !(i.rs == 0 && i.rt == reg)
  }

  /** A transfer that can be taken whatever the register holds, behind a delay slot that leaves the register open. */
  predicate Takes(p: Program, a: int, reg: int) {
    && p(a).Some? && DirectTarget(p(a)).Some? && DirectTarget(p(a)).value % 4 == 0 && AnyValue(p(a).value, reg)
    && (p(a + 4).Some? ==> p(a + 4).value.flow.Normal? && (WritesGpr(p(a + 4).value, reg) ==> !Matched(p(a + 4).value)))
  }

  /** Every listed edge into the line can be taken. */
  ghost predicate EdgesTake(p: Program, lui: int, transfer: int, reg: int) {
    forall a :: a % 4 == 0 && p(a).Some? && Lands(EdgesOf(p), a, lui, transfer) ==> Takes(p, a, reg)
  }

  /** The registers before an edge: `x` in the register, and in what a `beq` compares with it. */
  function Entering(i: Insn, reg: int, x: Word): (r: seq<Word>)
    ensures |r| == 32 && r[0] == 0
  {
    seq(32, n => if n == 0 then 0
                 else if n == reg || (IsBeq(i) && (i.rs == reg || i.rt == reg) && (n == i.rs || n == i.rt)) then x else 0)
  }

  /** One thing that a word in sequence may do: what it must, and otherwise nothing. */
  function Quietly(i: Insn, u: Cpu): seq<Word>
    requires IsCpu(u)
  {
    match Effect(i, u)
    case Some((reg, value)) => Set(u.regs, reg, value)
    case None => u.regs
  }

  lemma QuietStep(p: Program, u: Cpu, i: Insn)
    requires IsCpu(u) && p(u.pc) == Some(i) && i.flow.Normal?
    ensures Step(p, u, Cpu(u.npc, u.npc + 4, Quietly(i, u), u.mem))
  {
  }

  /** What the register holds at the transfer, from what it holds so many words before it. */
  function Left(p: Program, transfer: int, pair: Pair, k: nat, x: Word): Word {
    if 0 < pair.low <= k then Combine(x, Back(p, transfer, pair.low)) else x
  }

  lemma QuietLine(p: Program, transfer: int, reg: int, pair: Pair, k: nat, u: Cpu)
    requires Reaching(RolesOf(p, transfer, reg), pair) && 0 < reg < 32 && 0 < k < pair.upper
    requires IsCpu(u) && u.pc == transfer - 4 * k && u.npc == u.pc + 4
    ensures p(u.pc).Some? && !Unlisted(p, u.pc)
    ensures var d := Cpu(u.pc + 4, u.pc + 8, Quietly(p(u.pc).value, u), u.mem);
      IsCpu(d) && Step(p, u, d) && Left(p, transfer, pair, k - 1, d.regs[reg]) == Left(p, transfer, pair, k, u.regs[reg])
  {
    var roles := RolesOf(p, transfer, reg);
    assert roles(k) == RoleOf(p(u.pc), reg) && Passes(roles, pair.low, k);
    var i := p(u.pc).value;
    var d := Cpu(u.pc + 4, u.pc + 8, Quietly(i, u), u.mem);
    assert i.flow.Normal?;
    QuietStep(p, u, i);
    RoleEffect(i, reg, u, d);
  }

  /** The rest of a run to the transfer, which ends with this in the register. */
  ghost predicate Rest(p: Program, lui: int, transfer: int, reg: int, run: seq<Cpu>, u: Cpu, value: Word) {
    && run != [] && run[0] == u && IsRun(p, run) && run[|run|-1].pc == transfer && Ends(run, reg, value)
    && UnlistedStayOut(p, lui, transfer, run)
  }

  lemma Earlier(p: Program, lui: int, transfer: int, reg: int, u: Cpu, d: Cpu, rest: seq<Cpu>, value: Word) returns (run: seq<Cpu>)
    requires Rest(p, lui, transfer, reg, rest, d, value) && Step(p, u, d)
    requires Unlisted(p, u.pc) ==> StaysOut(u, d, lui, transfer)
    ensures Rest(p, lui, transfer, reg, run, u, value)
  {
    run := [u] + rest;
    forall i | 0 <= i < |run| - 1 ensures StepAt(p, run, i) && UnlistedStaysOut(p, lui, transfer, run, i) {
      if i > 0 { assert StepAt(p, rest, i - 1) && UnlistedStaysOut(p, lui, transfer, rest, i - 1); }
    }
  }

  /** Down the line from `k` words before the transfer. */
  lemma {:induction false} LineRun(p: Program, transfer: int, reg: int, pair: Pair, k: nat, u: Cpu) returns (run: seq<Cpu>)
    requires Reaching(RolesOf(p, transfer, reg), pair) && 0 < reg < 32 && k < pair.upper
    requires IsCpu(u) && u.pc == transfer - 4 * k && u.npc == u.pc + 4
    ensures Rest(p, transfer - 4 * pair.upper, transfer, reg, run, u, Left(p, transfer, pair, k, u.regs[reg]))
    decreases k
  {
    if k == 0 {
      run := [u];
    } else {
      QuietLine(p, transfer, reg, pair, k, u);
      var d := Cpu(u.pc + 4, u.pc + 8, Quietly(p(u.pc).value, u), u.mem);
      run := LineRun(p, transfer, reg, pair, k - 1, d);
      run := Earlier(p, transfer - 4 * pair.upper, transfer, reg, u, d, run, Left(p, transfer, pair, k, u.regs[reg]));
    }
  }

  // ---- Some value is wrong -----------------------------------------------------

  /** Something else than what should be in the register `k` words before the transfer. */
  function Other(p: Program, transfer: int, pair: Pair, k: nat): Word {
    if 0 < pair.low <= k then Wrap(UpperValue(Back(p, transfer, pair.upper)) + 0x1_0000)
    else Wrap(Value(p, transfer, pair) + 1)
  }

  lemma NextWraps(x: Word, step: int, y: int)
    requires 0 < step < 0x1_0000_0000
    ensures Wrap((Wrap(x + step) as int) + y) != Wrap(x + y)
  {
    var z := Wrap(x + y);
    assert Wrap(x + step) == x + step || Wrap(x + step) == x + step - 0x1_0000_0000;
  }

  lemma OrDiffers(high: nat, low: nat)
    requires high < 0x1_0000 && low < 0x1_0000
    ensures OrWords(Wrap(high * 0x1_0000 + 0x1_0000), low) != OrWords(high * 0x1_0000, low)
  {
    var next := if high == 0xFFFF then 0 else high + 1;
    assert Wrap(high * 0x1_0000 + 0x1_0000) == next * 0x1_0000;
    OrUpper(high, low);
    OrUpper(next, low);
  }

  lemma OtherIsWrong(p: Program, transfer: int, reg: int, pair: Pair, k: nat)
    requires Reaching(RolesOf(p, transfer, reg), pair) && reg != 0
    ensures Left(p, transfer, pair, k, Other(p, transfer, pair, k)) != Value(p, transfer, pair)
  {
    var upper := UpperValue(Back(p, transfer, pair.upper));
    if 0 < pair.low <= k {
      assert Passes(RolesOf(p, transfer, reg), pair.low, pair.low);
      var low := Back(p, transfer, pair.low).value;
      if IsAddiu(low) {
        NextWraps(upper, 0x1_0000, Signed(low));
      } else {
        var i := Back(p, transfer, pair.upper);
        OrDiffers(if i.None? then 0 else i.value.imm, low.imm);
      }
    } else {
      NextWraps(Value(p, transfer, pair), 1, 0);
    }
  }

  // ---- The edges the resolver does not look at -----------------------------------

  /** The start of a run over the edge at `a`, and its delay slot. */
  function EdgeStart(p: Program, a: int, reg: int, x: Word): Cpu
    requires p(a).Some?
  {
    Cpu(a, a + 4, Entering(p(a).value, reg, x), n => 0)
  }

  lemma EdgeIsTaken(p: Program, a: int, reg: int, x: Word)
    requires Takes(p, a, reg) && a % 4 == 0 && 0 < reg < 32
    ensures var u := EdgeStart(p, a, reg, x);
      IsCpu(u) && u.regs[reg] == x && Step(p, u, u.(pc := a + 4, npc := DirectTarget(p(a)).value))
  {
    var u, i := EdgeStart(p, a, reg, x), p(a).value;
    assert IsBeq(i) ==> u.regs[i.rs] == u.regs[i.rt];
  }

  /** What the delay slot leaves. */
  function SlotRegs(p: Program, u: Cpu): seq<Word>
    requires IsCpu(u)
  {
    if p(u.pc).None? then u.regs else Quietly(p(u.pc).value, u)
  }

  lemma SlotIsPassed(p: Program, a: int, reg: int, u: Cpu)
    requires Takes(p, a, reg) && IsCpu(u) && u.pc == a + 4 && u.npc % 4 == 0 && 0 < reg < 32
    ensures var d := Cpu(u.npc, u.npc + 4, SlotRegs(p, u), u.mem);
      IsCpu(d) && Step(p, u, d) && d.regs[reg] == u.regs[reg]
  {
    if p(u.pc).Some? {
      var d := Cpu(u.npc, u.npc + 4, SlotRegs(p, u), u.mem);
      QuietStep(p, u, p(u.pc).value);
      if WritesGpr(p(u.pc).value, reg) {
        assert Effect(p(u.pc).value, u).None?;
      } else {
        FrameRule(p(u.pc).value, u, d, reg);
      }
    }
  }

  /** From where the edge lands. */
  lemma LandedRun(p: Program, transfer: int, reg: int, pair: Pair, k: nat, u: Cpu) returns (run: seq<Cpu>, value: Word)
    requires Reaching(RolesOf(p, transfer, reg), pair) && 0 < reg < 32 && k < pair.upper
    requires IsCpu(u) && u.pc == transfer - 4 * k && u.npc == u.pc + 4 && u.regs[reg] == Other(p, transfer, pair, k)
    ensures Rest(p, transfer - 4 * pair.upper, transfer, reg, run, u, value) && value != Value(p, transfer, pair)
  {
    value := Left(p, transfer, pair, k, u.regs[reg]);
    run := LineRun(p, transfer, reg, pair, k, u);
    OtherIsWrong(p, transfer, reg, pair, k);
  }

  /** A run over the edge that brings a wrong value. */
  lemma EdgeRun(p: Program, lui: int, transfer: int, reg: int, pair: Pair, a: int) returns (run: seq<Cpu>, value: Word)
    requires Reaching(RolesOf(p, transfer, reg), pair) && 0 < reg < 32 && transfer % 4 == 0 && lui == transfer - 4 * pair.upper
    requires a % 4 == 0 && Takes(p, a, reg) && lui < DirectTarget(p(a)).value <= transfer
    ensures Rest(p, lui, transfer, reg, run, EdgeStart(p, a, reg, Other(p, transfer, pair, (transfer - DirectTarget(p(a)).value) / 4)), value)
    ensures value != Value(p, transfer, pair)
  {
    var target := DirectTarget(p(a)).value;
    var k: nat := (transfer - target) / 4;
    var u := EdgeStart(p, a, reg, Other(p, transfer, pair, k));
    var v := u.(pc := a + 4, npc := target);
    EdgeIsTaken(p, a, reg, Other(p, transfer, pair, k));
    SlotIsPassed(p, a, reg, v);
    var w := Cpu(target, target + 4, SlotRegs(p, v), v.mem);
    run, value := LandedRun(p, transfer, reg, pair, k, w);
    run := Earlier(p, lui, transfer, reg, v, w, run, value);
    run := Earlier(p, lui, transfer, reg, u, v, run, value);
  }

  lemma SkipIsTaken(p: Program, a: int, reg: int, x: Word)
    requires Skips(p(a)) && a % 4 == 0 && 0 < reg < 32
    ensures var u := EdgeStart(p, a, reg, x);
      IsCpu(u) && u.regs[reg] == x && Step(p, u, u.(pc := a + 8, npc := a + 12)) && !Unlisted(p, a)
  {
  }

  /** A run that skips the `lui`. */
  lemma SkipRun(p: Program, lui: int, transfer: int, reg: int, pair: Pair) returns (run: seq<Cpu>, value: Word)
    requires Reaching(RolesOf(p, transfer, reg), pair) && 0 < reg < 32 && transfer % 4 == 0 && lui == transfer - 4 * pair.upper
    requires Skips(p(lui - 4))
    ensures Rest(p, lui, transfer, reg, run, EdgeStart(p, lui - 4, reg, Other(p, transfer, pair, pair.upper - 1)), value)
    ensures value != Value(p, transfer, pair)
  {
    var x := Other(p, transfer, pair, pair.upper - 1);
    var u := EdgeStart(p, lui - 4, reg, x);
    SkipIsTaken(p, lui - 4, reg, x);
    var w := u.(pc := lui + 4, npc := lui + 8);
    run, value := LandedRun(p, transfer, reg, pair, pair.upper - 1, w);
    run := Earlier(p, lui, transfer, reg, u, w, run, value);
  }

  lemma WrongIsUnsound(p: Program, transfer: int, reg: int, pair: Pair, run: seq<Cpu>, u: Cpu, value: Word)
    requires Rest(p, transfer - 4 * pair.upper, transfer, reg, run, u, value) && value != Value(p, transfer, pair)
    requires IsCpu(u) && StartsOutside(u, transfer - 4 * pair.upper, transfer)
    ensures !AlwaysHolds(p, transfer, reg, pair)
  {
    assert ReachesTransfer(p, transfer - 4 * pair.upper, transfer, run);
    assert !Ends(run, reg, Value(p, transfer, pair));
  }

  lemma SealedHolds(p: Program, entry: int, transfer: int, reg: int, pair: Pair)
    requires Resolves(p, entry, transfer, reg, pair) && 0 < reg < 32 && entry % 4 == 0 && transfer % 4 == 0
    requires Sealed(p, transfer - 4 * pair.upper, transfer)
    ensures AlwaysHolds(p, transfer, reg, pair)
  {
    forall run: seq<Cpu> | ReachesTransfer(p, transfer - 4 * pair.upper, transfer, run) ensures Ends(run, reg, Value(p, transfer, pair)) {
      SealedArrivesWithConstant(p, entry, transfer, reg, pair, run);
    }
  }

  /** A word of the line has no edge, so an edge into the line starts outside. */
  lemma EdgeIsUnsound(p: Program, transfer: int, reg: int, pair: Pair, a: int)
    requires Reaching(RolesOf(p, transfer, reg), pair) && 0 < reg < 32 && transfer % 4 == 0 && DirectTarget(p(transfer)).None?
    requires a % 4 == 0 && Takes(p, a, reg) && Lands(EdgesOf(p), a, transfer - 4 * pair.upper, transfer)
    ensures !AlwaysHolds(p, transfer, reg, pair)
  {
    var lui := transfer - 4 * pair.upper;
    assert EdgesOf(p)(a) == DirectTarget(p(a));
    if lui <= a < transfer { LineIsNormal(p, transfer, reg, pair, a); }
    var run, value := EdgeRun(p, lui, transfer, reg, pair, a);
    WrongIsUnsound(p, transfer, reg, pair, run, run[0], value);
  }

  /**
   For a register jump and edges that can be taken: the returned constant is right on every run exactly when no edge of
   the listing, looked at or not, leads behind the `lui`.
   */
  lemma SealedExactly(p: Program, entry: int, transfer: int, reg: int, pair: Pair)
    requires Resolves(p, entry, transfer, reg, pair) && 0 < reg < 32 && entry % 4 == 0 && transfer % 4 == 0
    requires DirectTarget(p(transfer)).None? && EdgesTake(p, transfer - 4 * pair.upper, transfer, reg)
    ensures AlwaysHolds(p, transfer, reg, pair) <==> Sealed(p, transfer - 4 * pair.upper, transfer)
  {
    var lui := transfer - 4 * pair.upper;
    if Sealed(p, lui, transfer) {
      SealedHolds(p, entry, transfer, reg, pair);
    } else if Skips(p(lui - 4)) {
      var run, value := SkipRun(p, lui, transfer, reg, pair);
      WrongIsUnsound(p, transfer, reg, pair, run, run[0], value);
    } else {
      var a :| a % 4 == 0 && p(a).Some? && Lands(EdgesOf(p), a, lui, transfer);
      EdgeIsUnsound(p, transfer, reg, pair, a);
    }
  }

  // ---- A late edge -----------------------------------------------------------------

  /** `lui $2, 1; addiu $2, $2, 4; jr $2; nop; j 4; nop` at address 0. */
  const LATE_EDGE: seq<Word> := [0x3C02_0001, 0x2442_0004, 0x0040_0008, 0, 0x0800_0001, 0]

  const LUI_2_1 := Fields(0x3C02_0001, 0x0F, 0, 2, 0, 0, 1, 1, true, Normal)
  const ADDIU_2_4 := Fields(0x2442_0004, 9, 2, 2, 0, 0, 4, 4, true, Normal)
  const JR_2 := Fields(0x0040_0008, 0, 2, 0, 0, 0, 8, 8, true, JumpRegister)
  const JUMP_4 := Fields(0x0800_0001, 2, 0, 0, 0, 0, 1, 1, true, Jump(4))

  predicate LateEdgeHead(p: Program) { p(0) == Some(LUI_2_1) && p(4) == Some(ADDIU_2_4) && p(8) == Some(JR_2) }

  predicate LateEdgeTail(p: Program) { p(12) == Some(NOP) && p(16) == Some(JUMP_4) && p(20) == Some(NOP) }

  ghost predicate IsLateEdge(p: Program) {
    LateEdgeHead(p) && LateEdgeTail(p) && forall a :: !(0 <= a < 24) ==> p(a).None?
  }

  lemma HeadDecodes()
    ensures Decode(0, 0x3C02_0001) == LUI_2_1 && Decode(4, 0x2442_0004) == ADDIU_2_4 && Decode(8, 0x0040_0008) == JR_2
  {
  }

  lemma TailDecodes()
    ensures Decode(12, 0) == NOP && Decode(16, 0x0800_0001) == JUMP_4 && Decode(20, 0) == NOP
  {
  }

  lemma HeadListed(words: seq<Word>, m: Image)
    requires |words| == 6 && m == Image(Assemble(words), 0)
    requires words[0] == 0x3C02_0001 && words[1] == 0x2442_0004 && words[2] == 0x0040_0008
    ensures LateEdgeHead(Listing(m))
  {
    HeadDecodes();
    AssembledInsn(words, m, 0, 0, 0x3C02_0001, LUI_2_1);
    AssembledInsn(words, m, 1, 4, 0x2442_0004, ADDIU_2_4);
    AssembledInsn(words, m, 2, 8, 0x0040_0008, JR_2);
  }

  lemma TailListed(words: seq<Word>, m: Image)
    requires |words| == 6 && m == Image(Assemble(words), 0)
    requires words[3] == 0 && words[4] == 0x0800_0001 && words[5] == 0
    ensures LateEdgeTail(Listing(m))
  {
    TailDecodes();
    AssembledInsn(words, m, 3, 12, 0, NOP);
    AssembledInsn(words, m, 4, 16, 0x0800_0001, JUMP_4);
    AssembledInsn(words, m, 5, 20, 0, NOP);
  }

  lemma LateEdgeExists(words: seq<Word>, m: Image)
    requires words == LATE_EDGE && m == Image(Assemble(words), 0)
    ensures IsLateEdge(Listing(m))
  {
    HeadListed(words, m);
    TailListed(words, m);
    AssembledSize(words);
  }

  lemma LateEdgeResolves(p: Program)
    requires LateEdgeHead(p) && LateEdgeTail(p)
    ensures Resolves(p, 0, 8, 2, Pair(2, 1)) && Value(p, 8, Pair(2, 1)) == 0x1_0004
  {
    var roles, edges := RolesOf(p, 8, 2), EdgesOf(p);
    assert roles(2) == Upper && roles(1) == Low(false);
    forall source | IsSource(0, source, 8) ensures !Lands(edges, source, 0, 8) {
      assert source == 0 || source == 4;
    }
  }

  function At(pc: int, npc: int, regs: seq<Word>): Cpu { Cpu(pc, npc, regs, a => 0) }

  /** The example is one of the edges that can be taken. */
  lemma LateEdgeTakes(p: Program)
    requires IsLateEdge(p)
    ensures DirectTarget(p(8)).None? && EdgesTake(p, 0, 8, 2) && !Sealed(p, 0, 8)
  {
    assert EdgesOf(p)(16) == Some(4) && Lands(EdgesOf(p), 16, 0, 8);
    forall a | a % 4 == 0 && p(a).Some? && Lands(EdgesOf(p), a, 0, 8) ensures Takes(p, a, 2) {
      assert EdgesOf(p)(a) == DirectTarget(p(a));
      assert a == 0 || a == 4 || a == 8 || a == 12 || a == 16 || a == 20;
    }
  }

  lemma LateEdgeRun(p: Program) returns (run: seq<Cpu>)
    requires LateEdgeHead(p) && LateEdgeTail(p)
    ensures IsRun(p, run) && |run| == 4 && IsCpu(run[0]) && IsCpu(run[3])
    ensures run[0].pc == 16 && run[3].pc == 8 && run[3].regs[2] == 4
  {
    var regs := seq(32, i => 0);
    run := [At(16, 20, regs), At(20, 4, regs), At(4, 8, regs), At(8, 12, regs[2 := 4])];
    assert StepAt(p, run, 0);
    assert StepAt(p, run, 1);
    assert StepAt(p, run, 2);
  }

  /**
   A jump from behind the transfer that lands after the `lui` is not looked at: the constant is
   returned, and a run within the function reaches the transfer with another value. The edge is one of those
   of which `SealedExactly` speaks.
   */
  lemma LaterEdgeBreaksConstant() returns (p: Program, run: seq<Cpu>)
    ensures p == Listing(Image(Assemble(LATE_EDGE), 0)) && Resolves(p, 0, 8, 2, Pair(2, 1))
    ensures DirectTarget(p(8)).None? && EdgesTake(p, 0, 8, 2) && !Sealed(p, 0, 8)
    ensures IsRun(p, run) && |run| == 4 && IsCpu(run[0]) && IsCpu(run[3])
    ensures run[0].pc == 16 && run[3].pc == 8 && run[3].regs[2] != Value(p, 8, Pair(2, 1))
  {
    var m := Image(Assemble(LATE_EDGE), 0);
    p := Listing(m);
    LateEdgeExists(LATE_EDGE, m);
    LateEdgeResolves(p);
    LateEdgeTakes(p);
    run := LateEdgeRun(p);
  }
}
