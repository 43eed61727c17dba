/** MIPS instruction words: fields, validity, control-flow classes, register writes, and program listings. */
module Mips {
  import opened Prelude
  import opened BitWords

  type Word = w: int | 0 <= w < 0x1_0000_0000

  /** A captured byte image, loaded at `load`. */
  datatype Image = Image(data: seq<Byte>, load: int)

  function Op(w: Word): int { w / 0x400_0000 }
  function Rs(w: Word): int { w / 0x20_0000 % 0x20 }
  function Rt(w: Word): int { w / 0x1_0000 % 0x20 }
  function Rd(w: Word): int { w / 0x800 % 0x20 }
  function Sa(w: Word): int { w / 0x40 % 0x20 }
  function Fn(w: Word): int { w % 0x40 }
  function Imm(w: Word): int { w % 0x1_0000 }

  /** The immediate read as a signed 16-bit number. */
  function SignedImm(w: Word): int {
    if Imm(w) >= 0x8000 then Imm(w) - 0x1_0000 else Imm(w)
  }

  function BytesWord(data: seq<Byte>, off: int): Word
    requires 0 <= off && off + 4 <= |data|
  {
    (data[off] as int) + 0x100 * (data[off+1] as int) + 0x1_0000 * (data[off+2] as int) + 0x100_0000 * (data[off+3] as int)
  }

  /** `_word_at` */
  function WordAt(m: Image, addr: int): Option<Word> {
    var off := addr - m.load;
    if off < 0 || off + 4 > |m.data| then None else Some(BytesWord(m.data, off))
  }

  /** The little-endian bytes of a program. */
  function Assemble(words: seq<Word>): seq<Byte> {
    if words == [] then []
    else
      var w := words[|words|-1];
      Assemble(words[..|words|-1]) + [w % 0x100, w / 0x100 % 0x100, w / 0x1_0000 % 0x100, w / 0x100_0000]
  }

  lemma WordOfBytes(w: Word)
    ensures w % 0x100 + 0x100 * (w / 0x100 % 0x100) + 0x1_0000 * (w / 0x1_0000 % 0x100) + 0x100_0000 * (w / 0x100_0000) == w
  {
    var a := w / 0x100;
    var b := a / 0x100;
    assert b == w / 0x1_0000;
    assert b / 0x100 == w / 0x100_0000;
  }

  lemma LastWord(prefix: seq<Byte>, w: Word)
    ensures var data := prefix + [w % 0x100, w / 0x100 % 0x100, w / 0x1_0000 % 0x100, w / 0x100_0000];
      BytesWord(data, |prefix|) == w
  {
    WordOfBytes(w);
  }

  lemma PrefixWord(data: seq<Byte>, more: seq<Byte>, off: nat)
    requires off + 4 <= |data|
    ensures BytesWord(data + more, off) == BytesWord(data, off)
  {
  }

  lemma {:induction false} AssembledWord(words: seq<Word>, load: int, i: nat)
    requires i < |words|
    ensures |Assemble(words)| == 4 * |words|
    ensures WordAt(Image(Assemble(words), load), load + 4 * i) == Some(words[i])
    decreases |words|
  {
    var n := |words| - 1;
    var init, w := words[..n], words[n];
    AssembledSize(words);
    AssembledSize(init);
    if i < n {
      AssembledWord(init, load, i);
      PrefixWord(Assemble(init), [w % 0x100, w / 0x100 % 0x100, w / 0x1_0000 % 0x100, w / 0x100_0000], 4 * i);
    } else {
      LastWord(Assemble(init), w);
    }
  }

  lemma {:induction false} AssembledSize(words: seq<Word>)
    ensures |Assemble(words)| == 4 * |words|
    decreases |words|
  {
    if words != [] {
      AssembledSize(words[..|words|-1]);
    }
  }

  /** `_is_control_flow` */
  predicate IsControlFlow(w: Option<Word>) {
    w.Some? &&
    var op, fn := Op(w.value), Fn(w.value);
    || op == 1 || 2 <= op <= 7 || 0x14 <= op <= 0x17
    || (op == 0 && (fn == 8 || fn == 9))
    || ((op == 0x11 || op == 0x12) && Rs(w.value) == 8)
  }

  /** `_is_valid_mips_word` */
  predicate IsValidWord(w: Option<Word>) {
    w.Some? && w.value != 0xFFFF_FFFF && w.value != 0xFFFF_FFFD &&
    var op, fn := Op(w.value), Fn(w.value);
    if op == 0 then
      fn in {0, 2, 3, 4, 6, 7, 8, 9, 0x0C, 0x0D, 0x10, 0x11, 0x12, 0x13, 0x18, 0x19, 0x1A, 0x1B,
             0x20, 0x21, 0x22, 0x23, 0x24, 0x25, 0x26, 0x27, 0x2A, 0x2B}
    else if op == 1 then Rt(w.value) in {0, 1, 0x10, 0x11}
    else
      op in {2, 3, 4, 5, 6, 7, 8, 9, 0x0A, 0x0B, 0x0C, 0x0D, 0x0E, 0x0F, 0x10, 0x12,
             0x20, 0x21, 0x22, 0x23, 0x24, 0x25, 0x26, 0x28, 0x29, 0x2A, 0x2B, 0x2E, 0x30, 0x32, 0x38, 0x3A}
  }

  /** `_jump_target`, for the addresses the analysis works with. */
  function JumpTarget(pc: int, w: Word): int {
    (pc + 4) / 0x1000_0000 % 0x10 * 0x1000_0000 + w % 0x400_0000 * 4
  }

  /** `_branch_target` */
  function BranchTarget(pc: int, w: Word): int {
    pc + 4 + SignedImm(w) * 4
  }

  datatype Flow =
    | Normal
    | Branch(target: int)
    | BranchNever
    | BranchNeverLikely
    | Jump(target: int)
    | Call(target: int)
    | CallRegister
    | JumpRegister
    | Return

  /** `_classify_cf` */
  function ClassifyCf(pc: int, w: Word): Flow {
    var op, fn, rs, rt := Op(w), Fn(w), Rs(w), Rt(w);
    if op == 0 && fn == 8 then (if rs == 31 then Return else JumpRegister)
    else if op == 0 && fn == 9 then CallRegister
    else if op == 2 then Jump(JumpTarget(pc, w))
    else if op == 3 then Call(JumpTarget(pc, w))
    else if (op == 4 || op == 0x14) && rs == rt then Jump(BranchTarget(pc, w))
    else if op == 5 && rs == rt then BranchNever
    else if op == 0x15 && rs == rt then BranchNeverLikely
    else if (op == 6 || op == 0x16) && rs == 0 then Jump(BranchTarget(pc, w))
    else if op == 7 && rs == 0 then BranchNever
    else if op == 0x17 && rs == 0 then BranchNeverLikely
    else if op == 1 && rs == 0 && (rt == 0 || rt == 0x10) then BranchNever
    else if op == 1 && rs == 0 && (rt == 2 || rt == 0x12) then BranchNeverLikely
    else if op == 1 && rs == 0 && (rt == 1 || rt == 3) then Jump(BranchTarget(pc, w))
    else if op == 1 && rs == 0 && (rt == 0x11 || rt == 0x13) then Call(BranchTarget(pc, w))
    else if (op == 0x11 || op == 0x12) && rs == 8 then Branch(BranchTarget(pc, w))
    else if op == 1 || 4 <= op <= 7 || 0x14 <= op <= 0x17 then Branch(BranchTarget(pc, w))
    else Normal
  }

  /** The classifier and the control-flow test agree on what leaves the straight line. */
  lemma NormalIsStraight(pc: int, w: Word)
    ensures ClassifyCf(pc, w).Normal? <==> !IsControlFlow(Some(w))
  {
  }

  /** `_mips_control_kind`: 1 a supported delayed transfer, -1 a reserved one, 0 anything else. */
  function ControlKind(w: Word): int {
    var op := Op(w);
    if op == 0 then (if Fn(w) == 8 || Fn(w) == 9 then 1 else 0)
    else if op == 1 then (if Rt(w) in {0, 1, 0x10, 0x11} then 1 else -1)
    else if 2 <= op <= 7 then 1
    else if 0x14 <= op <= 0x17 then -1
    else if 0x10 <= op <= 0x13 && Rs(w) == 8 then -1
    else 0
  }

  // ---- Decoded instructions ------------------------------------------------

  type Reg = r: int | 0 <= r < 0x20
  type Half = h: int | 0 <= h < 0x1_0000

  datatype Fields = Fields(word: Word, op: int, rs: Reg, rt: Reg, rd: Reg, sa: Reg, fn: int, imm: Half,
                           valid: bool, flow: Flow)

  /** What `_is_control_flow` and `_classify_cf` make of the fields. */
  predicate Coherent(i: Fields) {
    && (i.flow.Normal? <==> !(1 <= i.op <= 7 || 0x14 <= i.op <= 0x17 || (i.op == 0 && (i.fn == 8 || i.fn == 9))
                              || ((i.op == 0x11 || i.op == 0x12) && i.rs == 8)))
    && (i.op == 4 && i.rs != i.rt ==> i.flow.Branch?)
    && (i.op == 0 && i.fn == 8 ==> i.flow == if i.rs == 31 then Return else JumpRegister)
  }

  const NOP := Fields(0, 0, 0, 0, 0, 0, 0, 0, true, Normal)

  type Insn = i: Fields | Coherent(i) witness NOP

  function Decode(pc: int, w: Word): Insn {
    Fields(w, Op(w), Rs(w), Rt(w), Rd(w), Sa(w), Fn(w), Imm(w), IsValidWord(Some(w)), ClassifyCf(pc, w))
  }

  function Signed(i: Insn): int {
    if i.imm >= 0x8000 then i.imm - 0x1_0000 else i.imm
  }

  /** `_instruction_writes_gpr` */
  predicate WritesGpr(i: Insn, reg: int) {
    reg != 0 &&
    if i.op == 0 then
      i.fn !in {8, 0x0C, 0x0D, 0x11, 0x13, 0x18, 0x19, 0x1A, 0x1B} && i.rd == reg
    else if i.op == 3 then reg == 31
    else if i.op == 1 && (i.rt == 0x10 || i.rt == 0x11) then reg == 31
    else if 8 <= i.op < 0x10 || 0x20 <= i.op < 0x27 || i.op == 0x30 || i.op == 0x32 then i.rt == reg
    else (i.op == 0x10 || i.op == 0x12) && (i.rs == 0 || i.rs == 2) && i.rt == reg
  }

  /** The instructions of an image by address. */
  type Program = int -> Option<Insn>

  function Listing(m: Image): Program {
    pc => var w := WordAt(m, pc); if w.None? then None else Some(Decode(pc, w.value))
  }

  predicate Transfers(i: Option<Insn>) { i.Some? && !i.value.flow.Normal? }

  predicate IsNop(i: Option<Insn>) {
    i.Some? && i.value.op == 0 && i.value.rs == 0 && i.value.rt == 0 && i.value.rd == 0 && i.value.sa == 0 && i.value.fn == 0
  }

  /** The control-flow test on a raw word is the classifier's, and the only word with empty fields is zero. */
  lemma ListingAgrees(m: Image, pc: int)
    ensures Transfers(Listing(m)(pc)) <==> IsControlFlow(WordAt(m, pc))
    ensures IsNop(Listing(m)(pc)) <==> WordAt(m, pc) == Some(0)
  {
    if WordAt(m, pc).Some? {
      NormalIsStraight(pc, WordAt(m, pc).value);
      EmptyFields(WordAt(m, pc).value);
    }
  }

  lemma EmptyFields(w: Word)
    ensures w == 0 <==> Op(w) == 0 && Rs(w) == 0 && Rt(w) == 0 && Rd(w) == 0 && Sa(w) == 0 && Fn(w) == 0
  {
    WordOfFields(w);
  }

  lemma WordOfFields(w: Word)
    ensures w == Op(w) * 0x400_0000 + Rs(w) * 0x20_0000 + Rt(w) * 0x1_0000 + Rd(w) * 0x800 + Sa(w) * 0x40 + Fn(w)
  {
    var a, b, c, d := w / 0x40, w / 0x800, w / 0x1_0000, w / 0x20_0000;
    Peels(w);
    assert w == a * 0x40 + Fn(w) && a == b * 0x20 + Sa(w) && b == c * 0x20 + Rd(w);
    assert c == d * 0x20 + Rt(w) && d == Op(w) * 0x20 + Rs(w);
  }

  lemma Peels(w: Word)
    ensures w / 0x800 == w / 0x40 / 0x20 && w / 0x1_0000 == w / 0x800 / 0x20
    ensures w / 0x20_0000 == w / 0x1_0000 / 0x20 && w / 0x400_0000 == w / 0x20_0000 / 0x20
  {
  }

  /** The encoded target of a branch, jump or call. */
  function DirectTarget(i: Option<Insn>): Option<int> {
    if i.None? then None
    else
      match i.value.flow
      case Branch(t) => Some(t)
      case Jump(t) => Some(t)
      case Call(t) => Some(t)
      case _ => None
  }

  type Edges = int -> Option<int>

  function EdgesOf(p: Program): Edges { pc => DirectTarget(p(pc)) }

  predicate Lands(edges: Edges, source: int, after: int, upTo: int) {
    edges(source).Some? && after < edges(source).value <= upTo
  }

  /** The addresses of `range(entry, transfer, 4)`. */
  predicate IsSource(entry: int, source: int, transfer: int) {
    entry <= source < transfer && (source - entry) % 4 == 0
  }

  lemma NextSource(entry: int, source: int, transfer: int)
    requires (source - entry) % 4 == 0
    ensures forall s :: IsSource(entry, s, transfer) && s < source + 4 ==> s <= source
  {
  }

  lemma Listed(m: Image, pc: int, w: Word, i: Insn)
    requires WordAt(m, pc) == Some(w) && Decode(pc, w) == i
    ensures Listing(m)(pc) == Some(i)
  {
  }

  /** An assembled word is listed as the instruction it decodes to. */
  lemma AssembledInsn(words: seq<Word>, m: Image, n: nat, pc: int, w: Word, i: Insn)
    requires m.data == Assemble(words) && n < |words| && pc == m.load + 4 * n && words[n] == w && Decode(pc, w) == i
    ensures Listing(m)(pc) == Some(i)
  {
    AssembledAt(words, m, n, pc);
    Listed(m, pc, w, i);
  }

  lemma AssembledAt(words: seq<Word>, m: Image, n: nat, pc: int)
    requires m.data == Assemble(words) && n < |words| && pc == m.load + 4 * n
    ensures WordAt(m, pc) == Some(words[n])
  {
    AssembledWord(words, m.load, n);
    assert m == Image(Assemble(words), m.load);
  }
}
