/**
 Function identities: an entry, the ranges that guard it and the CRC of the guarded
 bytes (parse_overlay_func_ids, audit_func_id_delay_slots, current_variant_func_ids).
 */
module FuncIds {
  import opened Prelude
  import opened BitWords
  import opened Crc32
  import opened Manifest
  import opened Mips

  function Base(m: Image): int { Phys(m.load) }

  /** A range lies in the captured bytes. */
  predicate InImage(r: Range, m: Image) {
    0 <= Phys(r.start) - Base(m) && Phys(r.start) - Base(m) + r.length <= |m.data|
  }

  /** A Python slice: an end below zero counts from the back. */
  function Slice(s: seq<Byte>, lo: nat, hi: int): seq<Byte>
    requires hi <= |s|
  {
    var end := if hi < 0 then hi + |s| else hi;
    if lo < end then s[lo..end] else []
  }

  function RangeBytes(r: Range, m: Image): seq<Byte>
    requires InImage(r, m)
  {
    Slice(m.data, Phys(r.start) - Base(m), Phys(r.start) - Base(m) + r.length)
  }

  predicate AllInImage(ranges: seq<Range>, m: Image) {
    forall r :: r in ranges ==> InImage(r, m)
  }

  /** The guarded bytes in manifest order. */
  function Guarded(ranges: seq<Range>, m: Image): seq<Byte>
    requires AllInImage(ranges, m)
  {
    if ranges == [] then []
    else
      var last := ranges[|ranges|-1];
      assert last in ranges;
      Guarded(ranges[..|ranges|-1], m) + RangeBytes(last, m)
  }

  // ---- parse_overlay_func_ids --------------------------------------------

  /** One line of the recompiler's manifest with its fields read; `None` is a field that does not parse. */
  datatype Line = EntryLine(addr: Option<int>) | CodeLine(range: Option<Range>) | OtherLine

  predicate InOverlay(a: int, m: Image) {
    Base(m) <= Phys(a) < Base(m) + |m.data|
  }

  datatype Draft = Draft(entry: int, ranges: seq<Range>)

  datatype Reader = Reader(open: bool, drafts: seq<Draft>)

  /** One line: an in-overlay entry opens a function, a range extends the open one. */
  function ReadLine(st: Reader, line: Line, m: Image): Reader {
    match line
    case EntryLine(addr) =>
      if addr.Some? && InOverlay(addr.value, m) then Reader(true, st.drafts + [Draft(addr.value, [])])
      else st.(open := false)
    case CodeLine(range) =>
      if st.open && st.drafts != [] && range.Some? then
        var last := st.drafts[|st.drafts|-1];
        st.(drafts := st.drafts[..|st.drafts|-1] + [last.(ranges := last.ranges + [range.value])])
      else st
    case OtherLine => st
  }

  function ReadLines(lines: seq<Line>, m: Image): Reader {
    if lines == [] then Reader(false, [])
    else ReadLine(ReadLines(lines[..|lines|-1], m), lines[|lines|-1], m)
  }

  /** The identity of a draft whose ranges can all be hashed. */
  predicate Hashable(d: Draft, m: Image) {
    d.ranges != [] && AllInImage(d.ranges, m)
  }

  function IdentityOf(d: Draft, m: Image): FuncId
    requires Hashable(d, m)
  {
    FuncId(Canonical(d.entry), Crc(Guarded(d.ranges, m), 0), d.ranges)
  }

  function IdentitiesOf(drafts: seq<Draft>, m: Image): seq<FuncId> {
    if drafts == [] then []
    else
      var last := drafts[|drafts|-1];
      IdentitiesOf(drafts[..|drafts|-1], m) + (if Hashable(last, m) then [IdentityOf(last, m)] else [])
  }

  lemma NextRange(ranges: seq<Range>, m: Image, i: nat)
    requires i < |ranges| && AllInImage(ranges[..i], m) && InImage(ranges[i], m)
    ensures AllInImage(ranges[..i+1], m)
    ensures Guarded(ranges[..i+1], m) == Guarded(ranges[..i], m) + RangeBytes(ranges[i], m)
  {
    assert ranges[..i+1][..i] == ranges[..i] && ranges[..i+1] == ranges[..i] + [ranges[i]];
  }

  /** The hashing loop shared by both users: the chained CRC is the CRC of the guarded bytes. */
  method HashRanges(ranges: seq<Range>, m: Image) returns (ok: bool, crc: nat)
    ensures ok <==> AllInImage(ranges, m)
    ensures ok ==> crc == Crc(Guarded(ranges, m), 0) < WORD
  {
    ok, crc := true, 0;
    CrcEmpty(0);
    var i := 0;
    while i < |ranges|
      invariant 0 <= i <= |ranges|
      invariant AllInImage(ranges[..i], m)
      invariant crc == Crc(Guarded(ranges[..i], m), 0)
    {
      var r := ranges[i];
      assert r in ranges;
      if !InImage(r, m) {
        return false, 0;
      }
      NextRange(ranges, m, i);
      CrcChains(Guarded(ranges[..i], m), RangeBytes(r, m), 0);
      crc := Crc(RangeBytes(r, m), crc);
      i := i + 1;
    }
    assert ranges[..i] == ranges;
    CrcBelow(Guarded(ranges, m), 0);
  }

  /** parse_overlay_func_ids */
  method ParseOverlayFuncIds(lines: seq<Line>, m: Image) returns (ids: seq<FuncId>)
    ensures ids == IdentitiesOf(ReadLines(lines, m).drafts, m)
  {
    var st := Reader(false, []);
    for i := 0 to |lines|
      invariant st == ReadLines(lines[..i], m)
    {
      assert lines[..i+1][..i] == lines[..i];
      st := ReadLine(st, lines[i], m);
    }
    assert lines[..|lines|] == lines;
    ids := [];
    for i := 0 to |st.drafts|
      invariant ids == IdentitiesOf(st.drafts[..i], m)
    {
      var d := st.drafts[i];
      assert st.drafts[..i+1][..i] == st.drafts[..i];
      if d.ranges != [] {
        var ok, crc := HashRanges(d.ranges, m);
        if ok {
          ids := ids + [FuncId(Canonical(d.entry), crc, d.ranges)];
        }
      }
    }
    assert st.drafts[..|st.drafts|] == st.drafts;
  }

  // ---- audit_func_id_delay_slots -----------------------------------------

  predicate WellFormedRange(r: Range, m: Image) {
    Phys(r.start) % 4 == 0 && r.length % 4 == 0 && r.length >= 4 && InImage(r, m)
  }

  /** The word at physical address `a` lies inside one guarded range. */
  predicate GuardsWord(ranges: seq<Range>, a: int) {
    exists r :: r in ranges && Phys(r.start) <= a && a + 4 <= Phys(r.start) + r.length
  }

  /** `pc` is the address of a guarded instruction. */
  predicate GuardsPc(ranges: seq<Range>, pc: int) {
    pc % 4 == 0 && GuardsWord(ranges, pc)
  }

  /** `_mips_control_kind` of the instruction at physical address `a`. */
  function KindAt(m: Image, a: int): int {
    if 0 <= a - Base(m) && a - Base(m) + 4 <= |m.data| then ControlKind(BytesWord(m.data, a - Base(m))) else 0
  }

  /** The control kind of every address of an image. */
  type Kinds = int -> int

  function KindsOf(m: Image): Kinds {
    a => KindAt(m, a)
  }

  predicate Audible(ranges: seq<Range>, m: Image) {
    |ranges| <= 16 && forall r :: r in ranges ==> WellFormedRange(r, m)
  }

  predicate ControlAt(ranges: seq<Range>, kinds: Kinds, pc: int) {
    GuardsPc(ranges, pc) && kinds(pc) > 0
  }

  /** A control transfer in the delay slot of another. */
  predicate NestedAt(ranges: seq<Range>, kinds: Kinds, pc: int) {
    ControlAt(ranges, kinds, pc) && ControlAt(ranges, kinds, pc - 4)
  }

  /** No reserved encoding, every delay slot guarded, no transfer inside a delay slot. */
  ghost predicate SlotsGuarded(ranges: seq<Range>, kinds: Kinds) {
    && (forall pc :: GuardsPc(ranges, pc) ==> kinds(pc) >= 0)
    && (forall pc :: ControlAt(ranges, kinds, pc) ==> GuardsWord(ranges, pc + 4))
    && (forall pc :: !NestedAt(ranges, kinds, pc))
  }

  /** What passing the audit promises about one identity. */
  ghost predicate DelaySlotsGuarded(f: FuncId, m: Image) {
    Audible(f.ranges, m) && SlotsGuarded(f.ranges, KindsOf(m))
  }

  datatype Fault = TooManyRanges | MalformedRange | Reserved | UnguardedDelaySlot | ControlInDelaySlot

  datatype AuditError = AuditError(entry: int, pc: Option<int>, fault: Fault)

  /** The reported fault is really there. */
  ghost predicate Genuine(e: AuditError, f: FuncId, m: Image) {
    e.entry == f.entry &&
    match e.fault
    case TooManyRanges => |f.ranges| > 16
    case MalformedRange => exists r :: r in f.ranges && !WellFormedRange(r, m)
    case _ => Audible(f.ranges, m) && e.pc.Some? && FaultAt(e.fault, f.ranges, KindsOf(m), e.pc.value)
  }

  ghost predicate FaultAt(fault: Fault, ranges: seq<Range>, kinds: Kinds, pc: int) {
    match fault
    case Reserved => GuardsPc(ranges, pc) && kinds(pc) < 0
    case UnguardedDelaySlot => ControlAt(ranges, kinds, pc) && !GuardsWord(ranges, pc + 4)
    case ControlInDelaySlot => NestedAt(ranges, kinds, pc)
    case _ => false
  }

  /** Faults found by the instruction scan, all of them real. */
  ghost predicate AllFaults(faults: seq<(Fault, int)>, ranges: seq<Range>, kinds: Kinds) {
    forall x :: x in faults ==> FaultAt(x.0, ranges, kinds, x.1)
  }

  /** `pc` is an instruction address of this range. */
  predicate Covers(r: Range, pc: int) {
    pc % 4 == 0 && Phys(r.start) <= pc && pc + 4 <= Phys(r.start) + r.length
  }

  lemma CoveredPc(ranges: seq<Range>, r: Range, pc: int)
    requires r in ranges && Covers(r, pc)
    ensures GuardsPc(ranges, pc)
  {
  }

  /** Nothing is wrong at `pc` on its own. */
  predicate Sane(ranges: seq<Range>, kinds: Kinds, pc: int) {
    GuardsPc(ranges, pc) && kinds(pc) >= 0 && (kinds(pc) > 0 ==> GuardsWord(ranges, pc + 4))
  }

  /** The scan of one range for its control transfers. */
  method AuditRange(ranges: seq<Range>, kinds: Kinds, r: Range) returns (controls: set<int>, faults: seq<(Fault, int)>)
    requires r in ranges && Phys(r.start) % 4 == 0 && r.length % 4 == 0
    ensures forall pc :: pc in controls <==> Covers(r, pc) && ControlAt(ranges, kinds, pc)
    ensures AllFaults(faults, ranges, kinds)
    ensures faults == [] <==> forall pc :: Covers(r, pc) ==> Sane(ranges, kinds, pc)
  {
    controls, faults := {}, [];
    var lo, hi := Phys(r.start), Phys(r.start) + r.length;
    var pc := lo;
    while pc < hi
      invariant lo <= pc && (pc <= hi || pc == lo) && pc % 4 == 0 && hi % 4 == 0
      invariant forall a :: a in controls <==> Covers(r, a) && a < pc && ControlAt(ranges, kinds, a)
      invariant AllFaults(faults, ranges, kinds)
      invariant faults == [] <==> forall a :: Covers(r, a) && a < pc ==> Sane(ranges, kinds, a)
      decreases hi - pc
    {
      assert Covers(r, pc);
      CoveredPc(ranges, r, pc);
      if kinds(pc) < 0 {
        faults := faults + [(Reserved, pc)];
      } else if kinds(pc) > 0 {
        controls := controls + {pc};
        if !GuardsWord(ranges, pc + 4) {
          faults := faults + [(UnguardedDelaySlot, pc)];
        }
      }
      NextPc(r, pc);
      pc := pc + 4;
    }
  }

  lemma NextPc(r: Range, pc: int)
    requires pc % 4 == 0
    ensures forall a :: Covers(r, a) && a < pc + 4 ==> a <= pc
  {
  }

  ghost predicate ControlsUpTo(ranges: seq<Range>, kinds: Kinds, controls: set<int>, n: nat)
    requires n <= |ranges|
  {
    forall pc :: pc in controls <==> ControlAt(ranges, kinds, pc) && exists j :: 0 <= j < n && Covers(ranges[j], pc)
  }

  ghost predicate SaneUpTo(ranges: seq<Range>, kinds: Kinds, n: nat)
    requires n <= |ranges|
  {
    forall j, pc :: 0 <= j < n && Covers(ranges[j], pc) ==> Sane(ranges, kinds, pc)
  }

  predicate Aligned(ranges: seq<Range>) {
    forall r :: r in ranges ==> Phys(r.start) % 4 == 0 && r.length % 4 == 0
  }

  /** The scan of all ranges. */
  method AuditRanges(ranges: seq<Range>, kinds: Kinds) returns (controls: set<int>, faults: seq<(Fault, int)>)
    requires Aligned(ranges)
    ensures forall pc :: pc in controls <==> ControlAt(ranges, kinds, pc)
    ensures AllFaults(faults, ranges, kinds)
    ensures faults == [] <==> forall pc :: GuardsPc(ranges, pc) ==> Sane(ranges, kinds, pc)
  {
    faults, controls := [], {};
    for i := 0 to |ranges|
      invariant ControlsUpTo(ranges, kinds, controls, i)
      invariant AllFaults(faults, ranges, kinds)
      invariant faults == [] <==> SaneUpTo(ranges, kinds, i)
    {
      assert ranges[i] in ranges;
      var more, found := AuditRange(ranges, kinds, ranges[i]);
      controls := controls + more;
      faults := faults + found;
    }
    AllControls(ranges, kinds, controls);
    AllSane(ranges, kinds);
  }

  lemma AllControls(ranges: seq<Range>, kinds: Kinds, controls: set<int>)
    requires ControlsUpTo(ranges, kinds, controls, |ranges|)
    ensures forall pc :: pc in controls <==> ControlAt(ranges, kinds, pc)
  {
    forall pc | ControlAt(ranges, kinds, pc) ensures pc in controls {
      var r :| r in ranges && Phys(r.start) <= pc && pc + 4 <= Phys(r.start) + r.length;
      var j :| 0 <= j < |ranges| && ranges[j] == r;
      assert Covers(ranges[j], pc);
    }
  }

  lemma AllSane(ranges: seq<Range>, kinds: Kinds)
    ensures SaneUpTo(ranges, kinds, |ranges|) <==> (forall pc :: GuardsPc(ranges, pc) ==> Sane(ranges, kinds, pc))
  {
    if SaneUpTo(ranges, kinds, |ranges|) {
      forall pc | GuardsPc(ranges, pc) ensures Sane(ranges, kinds, pc) {
        var r :| r in ranges && Phys(r.start) <= pc && pc + 4 <= Phys(r.start) + r.length;
        var j :| 0 <= j < |ranges| && ranges[j] == r;
        assert Covers(ranges[j], pc);
      }
    }
    if forall pc :: GuardsPc(ranges, pc) ==> Sane(ranges, kinds, pc) {
      forall j, pc | 0 <= j < |ranges| && Covers(ranges[j], pc) ensures Sane(ranges, kinds, pc) {
        CoveredPc(ranges, ranges[j], pc);
      }
    }
  }

  lemma NestedByDelays(ranges: seq<Range>, kinds: Kinds, controls: set<int>, delays: set<int>)
    requires forall pc :: pc in controls <==> ControlAt(ranges, kinds, pc)
    requires delays == set pc | pc in controls :: pc + 4
    ensures forall pc :: pc in controls * delays <==> NestedAt(ranges, kinds, pc)
  {
    forall pc ensures pc in delays <==> ControlAt(ranges, kinds, pc - 4) {
      if ControlAt(ranges, kinds, pc - 4) {
        assert pc - 4 in controls && pc == (pc - 4) + 4;
      }
    }
  }

  lemma SlotsBySanity(ranges: seq<Range>, kinds: Kinds)
    ensures SlotsGuarded(ranges, kinds) <==>
      (forall pc :: GuardsPc(ranges, pc) ==> Sane(ranges, kinds, pc)) && (forall pc :: !NestedAt(ranges, kinds, pc))
  {
    if SlotsGuarded(ranges, kinds) {
      forall pc | GuardsPc(ranges, pc) ensures Sane(ranges, kinds, pc) {
        assert ControlAt(ranges, kinds, pc) <==> kinds(pc) > 0;
      }
    }
    if forall pc :: GuardsPc(ranges, pc) ==> Sane(ranges, kinds, pc) {
      forall pc | ControlAt(ranges, kinds, pc) ensures GuardsWord(ranges, pc + 4) {
        assert Sane(ranges, kinds, pc);
      }
      forall pc | GuardsPc(ranges, pc) ensures kinds(pc) >= 0 {
        assert Sane(ranges, kinds, pc);
      }
    }
  }

  /** Both passes: the instruction scan, then the transfers that sit in delay slots. */
  method AuditInstructions(ranges: seq<Range>, kinds: Kinds) returns (faults: seq<(Fault, int)>)
    requires Aligned(ranges)
    ensures AllFaults(faults, ranges, kinds)
    ensures faults == [] <==> SlotsGuarded(ranges, kinds)
  {
    var controls;
    controls, faults := AuditRanges(ranges, kinds);
    SlotsBySanity(ranges, kinds);
    var delays := set pc | pc in controls :: pc + 4;
    NestedByDelays(ranges, kinds, controls, delays);
    var nested := controls * delays;
    ghost var clean := faults == [] && nested == {};
    while nested != {}
      invariant forall pc :: pc in nested ==> NestedAt(ranges, kinds, pc)
      invariant AllFaults(faults, ranges, kinds)
      invariant faults == [] && nested == {} <==> clean
      decreases nested
    {
      var pc :| pc in nested;
      nested := nested - {pc};
      faults := faults + [(ControlInDelaySlot, pc)];
    }
  }

  /** The audit of one identity: no error exactly when every delay slot is guarded and holds no transfer. */
  method AuditFuncId(f: FuncId, m: Image) returns (errors: seq<AuditError>)
    ensures forall e :: e in errors ==> Genuine(e, f, m)
    ensures errors == [] <==> DelaySlotsGuarded(f, m)
  {
    if |f.ranges| > 16 {
      return [AuditError(f.entry, None, TooManyRanges)];
    }
    for i := 0 to |f.ranges|
      invariant forall j :: 0 <= j < i ==> WellFormedRange(f.ranges[j], m)
    {
      if !WellFormedRange(f.ranges[i], m) {
        assert f.ranges[i] in f.ranges;
        return [AuditError(f.entry, Some(Phys(f.ranges[i].start)), MalformedRange)];
      }
    }
    var faults := AuditInstructions(f.ranges, KindsOf(m));
    errors := seq(|faults|, i requires 0 <= i < |faults| => AuditError(f.entry, Some(faults[i].1), faults[i].0));
    forall e | e in errors ensures Genuine(e, f, m) {
      var i :| 0 <= i < |errors| && errors[i] == e;
      assert faults[i] in faults;
    }
  }

  /** audit_func_id_delay_slots */
  method AuditFuncIdDelaySlots(ids: seq<FuncId>, m: Image) returns (errors: seq<AuditError>)
    ensures errors == [] <==> forall f :: f in ids ==> DelaySlotsGuarded(f, m)
    ensures forall e :: e in errors ==> exists f :: f in ids && Genuine(e, f, m)
  {
    errors := [];
    for i := 0 to |ids|
      invariant errors == [] <==> forall j :: 0 <= j < i ==> DelaySlotsGuarded(ids[j], m)
      invariant forall e :: e in errors ==> exists f :: f in ids && Genuine(e, f, m)
    {
      var found := AuditFuncId(ids[i], m);
      assert ids[i] in ids;
      errors := errors + found;
    }
  }

  // ---- current_variant_func_ids ------------------------------------------

  predicate NonEmptyRanges(ranges: seq<Range>) {
    forall r :: r in ranges ==> r.length > 0
  }

  /** The guarded bytes of this image hash to the identity's CRC. */
  predicate HashMatches(f: FuncId, m: Image) {
    && NonEmptyRanges(f.ranges) && AllInImage(f.ranges, m)
    && Crc(Guarded(f.ranges, m), 0) == f.crc % WORD
  }

  /** The identity belongs to this byte image. */
  ghost predicate Kept(f: FuncId, m: Image) {
    HashMatches(f, m) && DelaySlotsGuarded(f, m)
  }

  ghost function KeptIds(ids: seq<FuncId>, m: Image): seq<FuncId> {
    if ids == [] then []
    else KeptIds(ids[..|ids|-1], m) + (if Kept(ids[|ids|-1], m) then [ids[|ids|-1]] else [])
  }

  /** current_variant_func_ids */
  method CurrentVariantFuncIds(ids: seq<FuncId>, m: Image) returns (valid: seq<FuncId>)
    ensures valid == KeptIds(ids, m)
  {
    valid := [];
    for i := 0 to |ids|
      invariant valid == KeptIds(ids[..i], m)
    {
      var f := ids[i];
      assert ids[..i+1][..i] == ids[..i];
      if NonEmptyRanges(f.ranges) {
        var ok, crc := HashRanges(f.ranges, m);
        if ok && crc == f.crc % WORD {
          var errors := AuditFuncIdDelaySlots([f], m);
          assert f in [f];
          if errors == [] {
            valid := valid + [f];
          }
        }
      }
    }
    assert ids[..|ids|] == ids;
  }

  // ---- What retention depends on -----------------------------------------

  /** Two images of one span that agree on every guarded byte. */
  ghost predicate SameGuard(ranges: seq<Range>, m: Image, n: Image) {
    m.load == n.load && |m.data| == |n.data| &&
    forall r :: r in ranges && InImage(r, m) ==> RangeBytes(r, m) == RangeBytes(r, n)
  }

  lemma {:induction false} SameGuardedBytes(ranges: seq<Range>, m: Image, n: Image)
    requires SameGuard(ranges, m, n) && AllInImage(ranges, m)
    ensures AllInImage(ranges, n) && Guarded(ranges, m) == Guarded(ranges, n)
    decreases |ranges|
  {
    if ranges != [] {
      SameGuardedBytes(ranges[..|ranges|-1], m, n);
      assert ranges[|ranges|-1] in ranges;
    }
  }

  /** Slices that agree hold the same instruction words. */
  lemma SameSlice(x: seq<Byte>, y: seq<Byte>, lo: nat, hi: nat, q: nat)
    requires |x| == |y| && lo <= q && q + 4 <= hi <= |x| && x[lo..hi] == y[lo..hi]
    ensures BytesWord(x, q) == BytesWord(y, q)
  {
    forall i | q <= i < q + 4 ensures x[i] == y[i] {
      assert x[lo..hi][i - lo] == x[i] && y[lo..hi][i - lo] == y[i];
    }
    assert x[q] == y[q] && x[q+1] == y[q+1] && x[q+2] == y[q+2] && x[q+3] == y[q+3];
  }

  lemma SameGuardedKind(ranges: seq<Range>, m: Image, n: Image, pc: int)
    requires SameGuard(ranges, m, n) && (forall r :: r in ranges ==> WellFormedRange(r, m)) && GuardsPc(ranges, pc)
    ensures KindAt(m, pc) == KindAt(n, pc)
  {
    var r :| r in ranges && Phys(r.start) <= pc && pc + 4 <= Phys(r.start) + r.length;
    assert WellFormedRange(r, m);
    var off := Phys(r.start) - Base(m);
    assert RangeBytes(r, m) == RangeBytes(r, n);
    SameSlice(m.data, n.data, off, off + r.length, pc - Base(m));
  }

  lemma SameKinds(ranges: seq<Range>, k: Kinds, l: Kinds)
    requires SlotsGuarded(ranges, k) && forall pc :: GuardsPc(ranges, pc) ==> k(pc) == l(pc)
    ensures SlotsGuarded(ranges, l)
  {
    forall pc ensures ControlAt(ranges, l, pc) <==> ControlAt(ranges, k, pc) { }
    forall pc ensures !NestedAt(ranges, l, pc) {
      assert !NestedAt(ranges, k, pc);
    }
  }

  lemma SameAudit(f: FuncId, m: Image, n: Image)
    requires SameGuard(f.ranges, m, n) && DelaySlotsGuarded(f, m)
    ensures DelaySlotsGuarded(f, n)
  {
    forall r | r in f.ranges ensures WellFormedRange(r, n) {
      assert WellFormedRange(r, m);
    }
    var k, l := KindsOf(m), KindsOf(n);
    forall pc | GuardsPc(f.ranges, pc) ensures k(pc) == l(pc) {
      SameGuardedKind(f.ranges, m, n, pc);
    }
    SameKinds(f.ranges, k, l);
  }

  lemma SameGuardSymmetric(ranges: seq<Range>, m: Image, n: Image)
    requires SameGuard(ranges, m, n)
    ensures SameGuard(ranges, n, m)
  {
    forall r | r in ranges && InImage(r, n) ensures RangeBytes(r, n) == RangeBytes(r, m) {
      assert InImage(r, m);
    }
  }

  lemma SameHash(f: FuncId, m: Image, n: Image)
    requires SameGuard(f.ranges, m, n) && HashMatches(f, m)
    ensures HashMatches(f, n)
  {
    SameGuardedBytes(f.ranges, m, n);
  }

  /** Whether an identity is kept depends only on its guarded bytes. */
  lemma RetentionByGuardedBytes(f: FuncId, m: Image, n: Image)
    requires SameGuard(f.ranges, m, n)
    ensures Kept(f, m) <==> Kept(f, n)
  {
    SameGuardSymmetric(f.ranges, m, n);
    if Kept(f, m) {
      SameHash(f, m, n);
      SameAudit(f, m, n);
    }
    if Kept(f, n) {
      SameHash(f, n, m);
      SameAudit(f, n, m);
    }
  }

  lemma SmallMod(x: int)
    requires 0 <= x < WORD
    ensures x % WORD == x
  {
  }

  lemma ParsedHashMatches(d: Draft, m: Image)
    requires Hashable(d, m) && NonEmptyRanges(d.ranges)
    ensures HashMatches(IdentityOf(d, m), m)
  {
    CrcBelow(Guarded(d.ranges, m), 0);
    SmallMod(Crc(Guarded(d.ranges, m), 0));
  }

  /** An identity computed on one image, once audited, is kept on every image that agrees on its ranges. */
  lemma ParsedIdentityIsKept(d: Draft, m: Image, n: Image)
    requires Hashable(d, m) && DelaySlotsGuarded(IdentityOf(d, m), m) && SameGuard(d.ranges, m, n)
    ensures Kept(IdentityOf(d, m), n)
  {
    var f := IdentityOf(d, m);
    forall r | r in d.ranges ensures r.length > 0 {
      assert WellFormedRange(r, m);
    }
    ParsedHashMatches(d, m);
    RetentionByGuardedBytes(f, m, n);
  }

  lemma OtherHashIsDropped(f: FuncId, n: Image, h: nat)
    requires AllInImage(f.ranges, n) && f.crc == h < WORD && Crc(Guarded(f.ranges, n), 0) != h
    ensures !HashMatches(f, n)
  {
    SmallMod(f.crc);
    assert Crc(Guarded(f.ranges, n), 0) != f.crc % WORD;
  }

  /** An image whose guarded bytes differ inside one four-byte window loses the identity. */
  lemma ChangedGuardIsDropped(d: Draft, m: Image, n: Image, from: nat)
    requires Hashable(d, m) && AllInImage(d.ranges, n)
    requires |Guarded(d.ranges, m)| == |Guarded(d.ranges, n)| && Guarded(d.ranges, m) != Guarded(d.ranges, n)
    requires forall i :: 0 <= i < |Guarded(d.ranges, m)| && !(from <= i < from + 4) ==>
      Guarded(d.ranges, m)[i] == Guarded(d.ranges, n)[i]
    ensures !Kept(IdentityOf(d, m), n)
  {
    CrcBelow(Guarded(d.ranges, m), 0);
    WindowIsDetected(Guarded(d.ranges, m), Guarded(d.ranges, n), from, 0);
    OtherHashIsDropped(IdentityOf(d, m), n, Crc(Guarded(d.ranges, m), 0));
  }

  /** Every control transfer of a kept identity has its delay slot inside the guarded ranges. */
  lemma KeptGuardsDelaySlots(f: FuncId, m: Image, pc: int)
    requires Kept(f, m) && ControlAt(f.ranges, KindsOf(m), pc)
    ensures GuardsPc(f.ranges, pc + 4) && KindAt(m, pc + 4) == 0
  {
    SlotIsPlain(f.ranges, KindsOf(m), pc);
    assert KindsOf(m)(pc + 4) == KindAt(m, pc + 4);
  }

  lemma SlotIsPlain(ranges: seq<Range>, kinds: Kinds, pc: int)
    requires SlotsGuarded(ranges, kinds) && ControlAt(ranges, kinds, pc)
    ensures GuardsPc(ranges, pc + 4) && kinds(pc + 4) == 0
  {
    assert pc + 4 - 4 == pc;
    assert !NestedAt(ranges, kinds, pc + 4);
  }
}
