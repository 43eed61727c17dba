/** Function identities spelled out: which lines make which drafts, which bytes are hashed, and what the audit asks. */
module FuncIdLaws {
  import opened Prelude
  import opened BitWords
  import opened Manifest
  import opened Mips
  import opened FuncIds
  import opened MipsLaws

  // ---- Which drafts the lines make -----------------------------------------

  /** An entry line whose address lies in the overlay. */
  predicate Begins(line: Line, m: Image) {
    && line.EntryLine? && line.addr.Some?
    && m.load % 0x2000_0000 <= line.addr.value % 0x2000_0000 < m.load % 0x2000_0000 + |m.data|
  }

  /** The ranges of the lines from the `i`-th up to the next entry line, those that parse. */
  function Collected(lines: seq<Line>, i: nat): seq<Range>
    decreases |lines| - i
  {
    if i >= |lines| || lines[i].EntryLine? then []
    else (if lines[i].CodeLine? && lines[i].range.Some? then [lines[i].range.value] else []) + Collected(lines, i + 1)
  }

  /** The draft that begins with the `i`-th line. */
  function DraftAt(lines: seq<Line>, i: nat): Draft
    requires i < |lines| && lines[i].EntryLine? && lines[i].addr.Some?
  {
    Draft(lines[i].addr.value, Collected(lines, i + 1))
  }

  /** The drafts of the lines from the `i`-th on, in order. */
  function DraftsFrom(lines: seq<Line>, m: Image, i: nat): seq<Draft>
    decreases |lines| - i
  {
    if i >= |lines| then [] else Begun(lines, m, i) + DraftsFrom(lines, m, i + 1)
  }

  /** From this line on no entry line follows. */
  predicate Unbroken(lines: seq<Line>, i: nat) { forall j :: i <= j < |lines| ==> !lines[j].EntryLine? }

  function RangeOf(line: Line): seq<Range> { if line.CodeLine? && line.range.Some? then [line.range.value] else [] }

  lemma {:induction false} CollectedSnoc(lines: seq<Line>, line: Line, i: nat)
    requires i <= |lines|
    ensures Collected(lines + [line], i) == Collected(lines, i) + if Unbroken(lines, i) then RangeOf(line) else []
    decreases |lines| - i
  {
    var more := lines + [line];
    if i < |lines| {
      assert more[i] == lines[i];
      if !lines[i].EntryLine? { CollectedSnoc(lines, line, i + 1); }
    } else {
      assert Collected(more, i + 1) == [];
    }
  }

  /** The last entry line, if any, begins a draft. */
  predicate OpenFrom(lines: seq<Line>, m: Image, i: nat) {
    exists j :: i <= j < |lines| && Begins(lines[j], m) && Unbroken(lines, j + 1)
  }

  function Grown(drafts: seq<Draft>, more: seq<Range>): seq<Draft> {
    if drafts == [] then []
    else drafts[..|drafts|-1] + [Draft(drafts[|drafts|-1].entry, drafts[|drafts|-1].ranges + more)]
  }

  lemma GrownBehind(first: seq<Draft>, drafts: seq<Draft>, more: seq<Range>, tail: seq<Draft>)
    requires drafts != []
    ensures first + (Grown(drafts, more) + tail) == Grown(first + drafts, more) + tail
  {
    var n := |drafts| - 1;
    assert (first + drafts)[..|first| + n] == first + drafts[..n];
  }

  lemma GrownByNothing(drafts: seq<Draft>)
    ensures Grown(drafts, []) == drafts
  {
    if drafts != [] {
      var last := drafts[|drafts|-1];
      assert last.ranges + [] == last.ranges && drafts == drafts[..|drafts|-1] + [last];
    }
  }

  lemma OpenIsDrafted(lines: seq<Line>, m: Image, i: nat)
    requires OpenFrom(lines, m, i)
    ensures DraftsFrom(lines, m, i) != []
    decreases |lines| - i
  {
    if !Begins(lines[i], m) {
      assert OpenFrom(lines, m, i + 1);
      OpenIsDrafted(lines, m, i + 1);
    }
  }

  /** The draft that begins with the `i`-th line, if one does. */
  function Begun(lines: seq<Line>, m: Image, i: nat): seq<Draft>
    requires i < |lines|
  {
    if Begins(lines[i], m) then [DraftAt(lines, i)] else []
  }

  lemma BegunSnoc(lines: seq<Line>, m: Image, line: Line, i: nat)
    requires i < |lines|
    ensures Begun(lines + [line], m, i) == if Unbroken(lines, i + 1) then Grown(Begun(lines, m, i), RangeOf(line)) else Begun(lines, m, i)
  {
    assert (lines + [line])[i] == lines[i];
    CollectedSnoc(lines, line, i + 1);
    assert Collected(lines, i + 1) + [] == Collected(lines, i + 1);
  }

  /** What one more line adds to the drafts. */
  function WithLine(drafts: seq<Draft>, open: bool, line: Line, m: Image): seq<Draft> {
    (if open then Grown(drafts, RangeOf(line)) else drafts) + if Begins(line, m) then [Draft(line.addr.value, [])] else []
  }

  /** One more line ends the open draft, extends it, or begins another. */
  lemma {:induction false} DraftsSnoc(lines: seq<Line>, m: Image, line: Line, i: nat)
    requires i <= |lines|
    ensures DraftsFrom(lines + [line], m, i) == WithLine(DraftsFrom(lines, m, i), OpenFrom(lines, m, i), line, m)
    decreases |lines| - i
  {
    var more := lines + [line];
    if i == |lines| {
      assert DraftsFrom(more, m, i + 1) == [] && Collected(more, i + 1) == [];
    } else {
      DraftsSnoc(lines, m, line, i + 1);
      BegunSnoc(lines, m, line, i);
      OpenBefore(lines, m, i);
      if OpenFrom(lines, m, i + 1) { OpenIsDrafted(lines, m, i + 1); }
      if Unbroken(lines, i + 1) { NoneBehind(lines, m, i + 1); }
      JoinDrafts(Begun(lines, m, i), DraftsFrom(lines, m, i + 1), OpenFrom(lines, m, i + 1), Unbroken(lines, i + 1), line, m);
    }
  }

  lemma OpenBefore(lines: seq<Line>, m: Image, i: nat)
    requires i < |lines|
    ensures OpenFrom(lines, m, i) <==> OpenFrom(lines, m, i + 1) || (Begins(lines[i], m) && Unbroken(lines, i + 1))
    ensures OpenFrom(lines, m, i + 1) ==> !Unbroken(lines, i + 1)
  {
    if Begins(lines[i], m) && Unbroken(lines, i + 1) { assert OpenFrom(lines, m, i); }
    if OpenFrom(lines, m, i + 1) { OpenIsBroken(lines, m, i + 1); }
  }

  lemma JoinDrafts(first: seq<Draft>, drafts: seq<Draft>, open: bool, last: bool, line: Line, m: Image)
    requires (open ==> drafts != [] && !last) && (last ==> drafts == [])
    ensures (if last then Grown(first, RangeOf(line)) else first) + WithLine(drafts, open, line, m)
      == WithLine(first + drafts, open || (first != [] && last), line, m)
  {
    var tail: seq<Draft> := if Begins(line, m) then [Draft(line.addr.value, [])] else [];
    if open {
      GrownBehind(first, drafts, RangeOf(line), tail);
    } else if last {
      assert first + drafts == first && drafts + tail == tail;
    } else {
      assert first + (drafts + tail) == (first + drafts) + tail;
    }
  }

  lemma OpenIsBroken(lines: seq<Line>, m: Image, i: nat)
    requires OpenFrom(lines, m, i)
    ensures !Unbroken(lines, i)
  {
  }

  lemma {:induction false} NoneBehind(lines: seq<Line>, m: Image, i: nat)
    requires i <= |lines| && Unbroken(lines, i)
    ensures DraftsFrom(lines, m, i) == []
    decreases |lines| - i
  {
    if i < |lines| { NoneBehind(lines, m, i + 1); }
  }

  lemma OpenSnoc(lines: seq<Line>, m: Image, line: Line)
    ensures OpenFrom(lines + [line], m, 0) <==> if line.EntryLine? then Begins(line, m) else OpenFrom(lines, m, 0)
  {
    var more := lines + [line];
    assert forall k :: 0 <= k < |lines| ==> more[k] == lines[k];
    if OpenFrom(more, m, 0) && !line.EntryLine? {
      var j :| 0 <= j < |more| && Begins(more[j], m) && Unbroken(more, j + 1);
      assert Begins(lines[j], m) && Unbroken(lines, j + 1);
    }
    if line.EntryLine? && OpenFrom(more, m, 0) {
      var j :| 0 <= j < |more| && Begins(more[j], m) && Unbroken(more, j + 1);
      assert more[|lines|] == line && j == |lines|;
    }
    if Begins(line, m) { assert Unbroken(more, |lines| + 1) && more[|lines|] == line; }
    if OpenFrom(lines, m, 0) && !line.EntryLine? {
      var j :| 0 <= j < |lines| && Begins(lines[j], m) && Unbroken(lines, j + 1);
      assert more[j] == lines[j] && Unbroken(more, j + 1);
    }
  }

  /** The reader's drafts: one for each entry line in the overlay, with the ranges up to the next entry line. */
  lemma {:induction false} DraftsExactly(lines: seq<Line>, m: Image)
    ensures ReadLines(lines, m).drafts == DraftsFrom(lines, m, 0)
    ensures ReadLines(lines, m).open <==> OpenFrom(lines, m, 0)
    decreases |lines|
  {
    if lines != [] {
      var init, line := lines[..|lines|-1], lines[|lines|-1];
      assert lines == init + [line];
      DraftsExactly(init, m);
      DraftsSnoc(init, m, line, 0);
      OpenSnoc(init, m, line);
      if OpenFrom(init, m, 0) { OpenIsDrafted(init, m, 0); }
      var drafts := ReadLines(init, m).drafts;
      if RangeOf(line) == [] && drafts != [] { GrownByNothing(drafts); }
    }
  }

  // ---- Which bytes are hashed ------------------------------------------------

  lemma InImageExactly(r: Range, m: Image)
    ensures InImage(r, m) <==>
      m.load % 0x2000_0000 <= r.start % 0x2000_0000 && r.start % 0x2000_0000 + r.length <= m.load % 0x2000_0000 + |m.data|
  {
  }

  /** A range stands for its bytes; one of negative length slices from the back, as in the source. */
  lemma RangeBytesExactly(r: Range, m: Image, i: nat)
    requires InImage(r, m)
    ensures r.length >= 0 ==> |RangeBytes(r, m)| == r.length
    ensures r.length >= 0 && i < r.length ==> RangeBytes(r, m)[i] == m.data[r.start % 0x2000_0000 - m.load % 0x2000_0000 + i]
    ensures r.length < 0 && 0 <= r.start % 0x2000_0000 - m.load % 0x2000_0000 + r.length ==> RangeBytes(r, m) == []
    ensures var off := r.start % 0x2000_0000 - m.load % 0x2000_0000;
      off + r.length < 0 ==> RangeBytes(r, m) == if off < off + r.length + |m.data| then m.data[off..off + r.length + |m.data|] else []
  {
  }

  lemma BothInImage(a: seq<Range>, b: seq<Range>, m: Image)
    requires AllInImage(a, m) && AllInImage(b, m)
    ensures AllInImage(a + b, m)
  {
  }

  /** The ranges' bytes one after the other. */
  lemma {:induction false} GuardedExactly(a: seq<Range>, b: seq<Range>, m: Image)
    requires AllInImage(a, m) && AllInImage(b, m)
    ensures AllInImage(a + b, m) && Guarded(a + b, m) == Guarded(a, m) + Guarded(b, m)
    ensures |b| == 1 ==> Guarded(b, m) == RangeBytes(b[0], m)
    decreases |b|
  {
    BothInImage(a, b, m);
    if b == [] {
      assert a + b == a;
    } else {
      var init, last := b[..|b|-1], b[|b|-1];
      GuardedExactly(a, init, m);
      assert (a + b)[..|a+b|-1] == a + init && (a + b)[|a+b|-1] == last;
      GuardedLast(b, m);
      GuardedLast(a + b, m);
    }
  }

  lemma GuardedLast(ranges: seq<Range>, m: Image)
    requires AllInImage(ranges, m) && ranges != []
    ensures AllInImage(ranges[..|ranges|-1], m) && InImage(ranges[|ranges|-1], m)
    ensures Guarded(ranges, m) == Guarded(ranges[..|ranges|-1], m) + RangeBytes(ranges[|ranges|-1], m)
    ensures |ranges| == 1 ==> Guarded(ranges[..|ranges|-1], m) == []
  {
    assert ranges[|ranges|-1] in ranges;
  }

  // ---- What the audit asks ------------------------------------------------------

  /** The range is a positive number of aligned words of the capture. */
  predicate WholeWords(r: Range, m: Image) {
    && r.start % 0x2000_0000 % 4 == 0 && r.length % 4 == 0 && r.length >= 4
    && m.load % 0x2000_0000 <= r.start % 0x2000_0000 && r.start % 0x2000_0000 + r.length <= m.load % 0x2000_0000 + |m.data|
  }

  /** An aligned word that lies in one range. */
  predicate HasWord(ranges: seq<Range>, pc: int) {
    pc % 4 == 0 && exists r :: r in ranges && r.start % 0x2000_0000 <= pc && pc + 4 <= r.start % 0x2000_0000 + r.length
  }

  /** The captured word at a physical address. */
  function CapturedWord(m: Image, pc: int): Option<Word> { WordAt(Image(m.data, m.load % 0x2000_0000), pc) }

  predicate KindIs(m: Image, pc: int, kind: int) { CapturedWord(m, pc).Some? && ControlKind(CapturedWord(m, pc).value) == kind }

  /** No reserved branch, and behind every transfer a word that lies in one range and is no transfer itself. */
  ghost predicate SafeSlots(ranges: seq<Range>, m: Image) {
    forall pc :: HasWord(ranges, pc) ==>
      && !KindIs(m, pc, -1)
      && (KindIs(m, pc, 1) ==> HasWord(ranges, pc + 4) && !KindIs(m, pc + 4, 1))
  }

  lemma WordCaptured(ranges: seq<Range>, m: Image, pc: int)
    requires (forall r :: r in ranges ==> WholeWords(r, m))
    ensures HasWord(ranges, pc) <==> GuardsPc(ranges, pc)
    ensures HasWord(ranges, pc) ==> CapturedWord(m, pc).Some? && KindAt(m, pc) == ControlKind(CapturedWord(m, pc).value)
  {
    if HasWord(ranges, pc) {
      var r :| r in ranges && r.start % 0x2000_0000 <= pc && pc + 4 <= r.start % 0x2000_0000 + r.length;
      assert WholeWords(r, m);
    }
  }

  /** The audit sees the same word and kind at this address. */
  predicate Agrees(ranges: seq<Range>, m: Image, pc: int) {
    && (GuardsPc(ranges, pc) <==> HasWord(ranges, pc))
    && (HasWord(ranges, pc) ==> (KindAt(m, pc) < 0 <==> KindIs(m, pc, -1)) && (KindAt(m, pc) > 0 <==> KindIs(m, pc, 1)))
  }

  lemma AgreesAt(ranges: seq<Range>, m: Image, pc: int)
    requires forall r :: r in ranges ==> WholeWords(r, m)
    ensures Agrees(ranges, m, pc)
  {
    WordCaptured(ranges, m, pc);
    if CapturedWord(m, pc).Some? { KindsAgree(CapturedWord(m, pc).value); }
  }

  lemma GuardedIsSafe(ranges: seq<Range>, m: Image)
    requires (forall pc :: Agrees(ranges, m, pc)) && SlotsGuarded(ranges, KindsOf(m))
    ensures SafeSlots(ranges, m)
  {
    var kinds := KindsOf(m);
    forall pc | HasWord(ranges, pc)
      ensures !KindIs(m, pc, -1)
      ensures KindIs(m, pc, 1) ==> HasWord(ranges, pc + 4) && !KindIs(m, pc + 4, 1)
    {
      assert Agrees(ranges, m, pc) && kinds(pc) == KindAt(m, pc);
      if KindIs(m, pc, 1) {
        SlotIsPlain(ranges, kinds, pc);
        assert Agrees(ranges, m, pc + 4) && kinds(pc + 4) == KindAt(m, pc + 4);
      }
    }
  }

  /** A guarded transfer has a guarded word behind it that is none. */
  predicate PlainBehind(ranges: seq<Range>, kinds: Kinds, pc: int) {
    ControlAt(ranges, kinds, pc) ==> GuardsPc(ranges, pc + 4) && kinds(pc + 4) <= 0
  }

  lemma PlainIsUnnested(ranges: seq<Range>, kinds: Kinds, pc: int)
    requires PlainBehind(ranges, kinds, pc - 4)
    ensures !NestedAt(ranges, kinds, pc)
  {
    assert pc - 4 + 4 == pc;
  }

  lemma SafeAt(ranges: seq<Range>, m: Image, pc: int)
    requires Agrees(ranges, m, pc) && Agrees(ranges, m, pc + 4) && SafeSlots(ranges, m)
    ensures GuardsPc(ranges, pc) ==> KindAt(m, pc) >= 0
    ensures PlainBehind(ranges, KindsOf(m), pc)
  {
    assert KindsOf(m)(pc) == KindAt(m, pc) && KindsOf(m)(pc + 4) == KindAt(m, pc + 4);
  }

  lemma SafeIsGuarded(ranges: seq<Range>, m: Image)
    requires (forall pc :: Agrees(ranges, m, pc)) && SafeSlots(ranges, m)
    ensures SlotsGuarded(ranges, KindsOf(m))
  {
    forall pc
      ensures PlainBehind(ranges, KindsOf(m), pc)
      ensures GuardsPc(ranges, pc) ==> KindsOf(m)(pc) >= 0
    {
      SafeAt(ranges, m, pc);
    }
    forall pc ensures !NestedAt(ranges, KindsOf(m), pc) { PlainIsUnnested(ranges, KindsOf(m), pc); }
  }

  lemma SlotsExactly(ranges: seq<Range>, m: Image)
    requires forall r :: r in ranges ==> WholeWords(r, m)
    ensures SlotsGuarded(ranges, KindsOf(m)) <==> SafeSlots(ranges, m)
  {
    forall pc ensures Agrees(ranges, m, pc) { AgreesAt(ranges, m, pc); }
    if SlotsGuarded(ranges, KindsOf(m)) { GuardedIsSafe(ranges, m); }
    if SafeSlots(ranges, m) { SafeIsGuarded(ranges, m); }
  }

  /** What passes the audit. */
  lemma AuditedExactly(f: FuncId, m: Image)
    ensures DelaySlotsGuarded(f, m) <==>
      |f.ranges| <= 16 && (forall r :: r in f.ranges ==> WholeWords(r, m)) && SafeSlots(f.ranges, m)
  {
    forall r ensures WellFormedRange(r, m) <==> WholeWords(r, m) { InImageExactly(r, m); }
    if forall r :: r in f.ranges ==> WholeWords(r, m) { SlotsExactly(f.ranges, m); }
  }

  /** Which identities an image keeps: audited, of positive ranges, and hashing to the recorded 32 bits. */
  lemma KeptExactly(f: FuncId, m: Image)
    ensures Kept(f, m) <==>
      && |f.ranges| <= 16 && (forall r :: r in f.ranges ==> WholeWords(r, m)) && SafeSlots(f.ranges, m)
      && AllInImage(f.ranges, m) && Crc32.Crc(Guarded(f.ranges, m), 0) == f.crc % 0x1_0000_0000
  {
    AuditedExactly(f, m);
    if forall r :: r in f.ranges ==> WholeWords(r, m) {
      forall r | r in f.ranges ensures r.length > 0 && InImage(r, m) { InImageExactly(r, m); }
    }
  }
}
