/** What words that add an immediate to a register, `addiu r, r, imm`, make of it together. */
module RegisterSums {
  import opened Prelude
  import opened Mips
  import opened Machine
  import opened JumpTableSoundness

  predicate AddsTo(i: Insn, reg: int) { IsAddiu(i) && i.rt == reg && i.rs == reg }

  function Adds(p: Program, a: int, reg: int): int {
    if p(a).Some? && AddsTo(p(a).value, reg) then Signed(p(a).value) else 0
  }

  /** What the words from one address up to another add to the register. */
  function Sum(p: Program, reg: int, from: int, upTo: int): int
    decreases upTo - from
  {
    if from >= upTo then 0 else Adds(p, from, reg) + Sum(p, reg, from + 4, upTo)
  }

  predicate OnlyAddsAt(p: Program, a: int, reg: int) {
    p(a).Some? && (WritesGpr(p(a).value, reg) ==> AddsTo(p(a).value, reg))
  }

  /** Whatever writes the register in between adds to it. */
  ghost predicate OnlyAdds(p: Program, from: int, upTo: int, reg: int) {
    forall a :: IsSource(from, a, upTo) ==> OnlyAddsAt(p, a, reg)
  }

  /** They leave it as it was. */
  ghost predicate Restores(p: Program, from: int, upTo: int, reg: int) {
    OnlyAdds(p, from, upTo, reg) && Wrap(Sum(p, reg, from, upTo)) == 0
  }

  lemma WrapSum(x: int, y: int, z: int)
    ensures Wrap((Wrap(x + y) as int) + z) == Wrap(x + (y + z))
  {
    WrapTwice(x + y, z);
    assert x + y + z == x + (y + z);
  }

  /** One word: what is still to be added makes up for what it added. */
  lemma SumKept(p: Program, reg: int, from: int, upTo: int, u: Cpu, d: Cpu)
    requires 0 < reg < 32 && from < upTo && OnlyAddsAt(p, from, reg)
    requires IsCpu(u) && IsCpu(d) && Computes(p(from).value, u, d)
    ensures Wrap(d.regs[reg] + Sum(p, reg, from + 4, upTo)) == Wrap(u.regs[reg] + Sum(p, reg, from, upTo))
  {
    var i := p(from).value;
    if AddsTo(i, reg) {
      WrapSum(u.regs[reg], Signed(i), Sum(p, reg, from + 4, upTo));
    } else {
      FrameRule(i, u, d, reg);
    }
  }

  lemma {:induction false} SumBound(p: Program, reg: int, from: int, upTo: int, n: nat)
    requires upTo - from <= 4 * n
    ensures -0x8000 * n <= Sum(p, reg, from, upTo) <= 0x8000 * n
    decreases n
  {
    if from < upTo {
      SumBound(p, reg, from + 4, upTo, n - 1);
    }
  }

  lemma {:induction false} LeavesIsRestores(p: Program, from: int, upTo: int, reg: int)
    requires LeavesAll(p, from, upTo, reg) && reg != 0
    ensures Sum(p, reg, from, upTo) == 0 && Restores(p, from, upTo, reg)
    decreases upTo - from
  {
    if from < upTo {
      assert IsSource(from, from, upTo) && Leaves(p, from, reg);
      forall a | IsSource(from + 4, a, upTo) ensures Leaves(p, a, reg) { assert IsSource(from, a, upTo); }
      LeavesIsRestores(p, from + 4, upTo, reg);
    }
    forall a | IsSource(from, a, upTo) ensures OnlyAddsAt(p, a, reg) { assert Leaves(p, a, reg); }
  }

  lemma OnlyAddsLater(p: Program, from: int, upTo: int, reg: int)
    requires OnlyAdds(p, from, upTo, reg)
    ensures OnlyAdds(p, from + 4, upTo, reg)
  {
    forall a | IsSource(from + 4, a, upTo) ensures OnlyAddsAt(p, a, reg) { assert IsSource(from, a, upTo); }
  }

  lemma OnlyAddsFrom(p: Program, from: int, upTo: int, reg: int)
    requires from < upTo && OnlyAddsAt(p, from, reg) && OnlyAdds(p, from + 4, upTo, reg)
    ensures OnlyAdds(p, from, upTo, reg)
  {
    forall a | IsSource(from, a, upTo) ensures OnlyAddsAt(p, a, reg) {
      if a != from { assert IsSource(from + 4, a, upTo); }
    }
  }
}
