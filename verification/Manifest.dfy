/**
 The loader manifest (v2): overlay_ranges_text writes it, parse_runtime_shard_manifest
 and manifest_provenance read it.  One record per LF-terminated line:
   P <pair id>     F <entry> <code crc>     R <start> <length>
 */
module Manifest {
  import opened Prelude
  import opened Hex

  datatype Range = Range(start: int, length: int)

  datatype FuncId = FuncId(entry: int, crc: int, ranges: seq<Range>)

  /** `(None, [])` is the parser's rejection. */
  datatype Parsed = Parsed(pair: Option<nat>, funcs: seq<FuncId>)

  const LINE_MAX := 128
  const PHYSICAL_LINE_MAX := 159
  const RAM_SIZE := 0x20_0000
  const REJECTED := Parsed(None, [])

  /** `a & 0x1FFFFFFF`, for Python integers of either sign. */
  function Phys(a: int): int { a % 0x2000_0000 }

  /** `(a & 0x1FFFFFFF) | 0x80000000` */
  function Canonical(a: int): int { Phys(a) + 0x8000_0000 }

  // ---- Lines and words ---------------------------------------------------

  function Split(s: string): (lines: seq<string>)
    ensures |lines| > 0
  {
    if s == [] then [[]]
    else
      var rest := Split(s[1..]);
      if s[0] == '\n' then [[]] + rest else [[s[0]] + rest[0]] + rest[1..]
  }

  predicate IsSpace(c: char) {
    c == ' ' || c == '\t' || c == '\r' || c == '\U{0B}' || c == '\U{0C}'
  }

  /** The length of the leading run of non-space characters. */
  function RunLength(s: string): (n: nat)
    ensures n <= |s|
  {
    if s == [] || IsSpace(s[0]) then 0 else 1 + RunLength(s[1..])
  }

  /** Stripping and splitting on runs of manifest white space. */
  function Words(s: string): (words: seq<string>)
    decreases |s|
  {
    if s == [] then []
    else if IsSpace(s[0]) then Words(s[1..])
    else
      var n := RunLength(s);
      [s[..n]] + Words(s[n..])
  }

  function Find(s: string, c: char): (i: nat)
    ensures i <= |s| && c !in s[..i] && (i < |s| ==> s[i] == c)
  {
    if s == [] || s[0] == c then 0 else 1 + Find(s[1..], c)
  }

  // ---- Reading -----------------------------------------------------------

  datatype Scan = Scan(pairIds: seq<nat>, funcs: seq<FuncId>)

  predicate HexField(token: string, maxDigits: nat) {
    1 <= |token| <= maxDigits && AllHex(token)
  }

  /** One line of the parser's loop; `None` rejects the manifest. */
  function ReadRecord(st: Scan, line: string): Option<Scan> {
    if |line| > PHYSICAL_LINE_MAX || Find(line, '\r') > LINE_MAX then None
    else
      var parts := Words(line);
      if parts == [] then Some(st)
      else if parts[0] == "P" then
        if |parts| == 2 && HexField(parts[1], 16)
        then Some(st.(pairIds := st.pairIds + [Value(parts[1])])) else None
      else if parts[0] == "F" then
        if |parts| == 3 && HexField(parts[1], 8) && HexField(parts[2], 8)
        then Some(st.(funcs := st.funcs + [FuncId(Canonical(Value(parts[1])), Value(parts[2]), [])])) else None
      else if parts[0] == "R" && st.funcs != [] then
        if |parts| == 3 && HexField(parts[1], 8) && HexField(parts[2], 8)
        then
          var last := st.funcs[|st.funcs|-1];
          var grown := last.(ranges := last.ranges + [Range(Value(parts[1]), Value(parts[2]))]);
          Some(st.(funcs := st.funcs[..|st.funcs|-1] + [grown]))
        else None
      else Some(st)
  }

  function ReadRecords(st: Scan, lines: seq<string>): Option<Scan>
    decreases |lines|
  {
    if lines == [] then Some(st)
    else match ReadRecord(st, lines[0])
      case None => None
      case Some(next) => ReadRecords(next, lines[1..])
  }

  predicate RangeInRam(r: Range) {
    r.length > 0 && Phys(r.start) < RAM_SIZE && r.length <= RAM_SIZE - Phys(r.start)
  }

  predicate Contains(r: Range, a: int) {
    Phys(r.start) <= Phys(a) < Phys(r.start) + r.length
  }

  /** What the runtime can represent of one function. */
  predicate Representable(f: FuncId) {
    && 1 <= |f.ranges| <= 16
    && (forall r :: r in f.ranges ==> RangeInRam(r))
    && exists r :: r in f.ranges && Contains(r, f.entry)
  }

  predicate DistinctEntries(funcs: seq<FuncId>) {
    forall i, j :: 0 <= i < j < |funcs| ==> Phys(funcs[i].entry) != Phys(funcs[j].entry)
  }

  predicate RuntimeContract(funcs: seq<FuncId>) {
    funcs != [] && DistinctEntries(funcs) && forall f :: f in funcs ==> Representable(f)
  }

  function Accept(st: Scan, requirePair: bool): Parsed {
    if |st.pairIds| > 1 || (requirePair && |st.pairIds| != 1) || !RuntimeContract(st.funcs) then REJECTED
    else Parsed(if st.pairIds == [] then None else Some(st.pairIds[0]), st.funcs)
  }

  /** The value of parse_runtime_shard_manifest. */
  function Parse(manifest: string, requirePair: bool): Parsed {
    if '\0' in manifest then REJECTED
    else match ReadRecords(Scan([], []), Split(manifest))
      case None => REJECTED
      case Some(st) => Accept(st, requirePair)
  }

  function EntrySet(funcs: seq<FuncId>): set<int> {
    set f | f in funcs :: Phys(f.entry)
  }

  /** The parser's duplicate check: a set of entries of the same size as the list. */
  lemma {:induction false} DistinctBySize(funcs: seq<FuncId>)
    ensures |EntrySet(funcs)| <= |funcs|
    ensures |EntrySet(funcs)| == |funcs| <==> DistinctEntries(funcs)
  {
    if funcs != [] {
      var init, last := funcs[..|funcs|-1], funcs[|funcs|-1];
      DistinctBySize(init);
      assert funcs == init + [last];
      assert EntrySet(funcs) == EntrySet(init) + {Phys(last.entry)};
      DistinctSnoc(init, last);
      if Phys(last.entry) in EntrySet(init) {
        assert EntrySet(funcs) == EntrySet(init);
      }
    }
  }

  lemma DistinctSnoc(init: seq<FuncId>, last: FuncId)
    ensures DistinctEntries(init + [last]) <==> DistinctEntries(init) && Phys(last.entry) !in EntrySet(init)
  {
    var funcs := init + [last];
    if DistinctEntries(funcs) {
      forall i, j | 0 <= i < j < |init| ensures Phys(init[i].entry) != Phys(init[j].entry) {
        assert init[i] == funcs[i] && init[j] == funcs[j];
      }
      forall f | f in init ensures Phys(f.entry) != Phys(last.entry) {
        var i :| 0 <= i < |init| && init[i] == f;
        assert funcs[i] == f && funcs[|init|] == last;
      }
    }
    if DistinctEntries(init) && Phys(last.entry) !in EntrySet(init) {
      forall i, j | 0 <= i < j < |funcs| ensures Phys(funcs[i].entry) != Phys(funcs[j].entry) {
        assert init[i] in init;
      }
    }
  }

  /** parse_runtime_shard_manifest */
  method ParseRuntimeShardManifest(manifest: string, requirePair: bool) returns (r: Parsed)
    ensures r == Parse(manifest, requirePair)
    ensures r.funcs != [] <==> r != REJECTED
  {
    if '\0' in manifest {
      return REJECTED;
    }
    var lines := Split(manifest);
    var st := Scan([], []);
    var i := 0;
    while i < |lines|
      invariant 0 <= i <= |lines|
      invariant ReadRecords(Scan([], []), lines) == ReadRecords(st, lines[i..])
    {
      var line := lines[i];
      assert lines[i..][1..] == lines[i+1..];
      var next := ReadRecord(st, line);
      if next == None {
        return REJECTED;
      }
      st := next.value;
      i := i + 1;
    }
    assert lines[i..] == [];
    DistinctBySize(st.funcs);
    if |st.pairIds| > 1 || (requirePair && |st.pairIds| != 1) || st.funcs == []
       || |EntrySet(st.funcs)| != |st.funcs| {
      return REJECTED;
    }
    i := 0;
    while i < |st.funcs|
      invariant 0 <= i <= |st.funcs|
      invariant forall j :: 0 <= j < i ==> Representable(st.funcs[j])
    {
      if !Representable(st.funcs[i]) {
        return REJECTED;
      }
      i := i + 1;
    }
    r := Parsed(if st.pairIds == [] then None else Some(st.pairIds[0]), st.funcs);
  }

  // ---- Writing -----------------------------------------------------------

  const COMMENT := "# " + "psxrecomp " + "overlay "
  const HEADER := COMMENT + "code-range " + "manifest " + "v2 " + "(entry+" + "code_crc)"
  const PROVENANCE_PREFIX := COMMENT + "provenance "
  const HOSTED := "hosted-v1"
  const ORPHAN := "orphan-v1"

  function RangeLine(r: Range): string
    requires r.length >= 0
  {
    "R " + Format(Canonical(r.start), 8) + " " + Format(r.length, 0)
  }

  function FuncLine(f: FuncId): string
    requires f.entry >= 0
  {
    "F " + Format(f.entry, 8) + " " + Format(f.crc % 0x1_0000_0000, 8)
  }

  function RangeLines(ranges: seq<Range>): seq<string>
    requires forall r :: r in ranges ==> r.length >= 0
  {
    if ranges == [] then [] else [RangeLine(ranges[0])] + RangeLines(ranges[1..])
  }

  predicate Printable(f: FuncId) {
    f.entry >= 0 && forall r :: r in f.ranges ==> r.length >= 0
  }

  function FuncLines(funcs: seq<FuncId>): seq<string>
    requires forall f :: f in funcs ==> Printable(f)
  {
    if funcs == [] then []
    else
      assert Printable(funcs[0]);
      [FuncLine(funcs[0])] + RangeLines(funcs[0].ranges) + FuncLines(funcs[1..])
  }

  function HeadLines(pair: Option<nat>, provenance: Option<string>): seq<string> {
    [HEADER]
    + (if provenance.Some? then [PROVENANCE_PREFIX + provenance.value] else [])
    + (if pair.Some? then ["P " + Format(pair.value % 0x1_0000_0000_0000_0000, 16)] else [])
  }

  function Join(lines: seq<string>): string {
    if lines == [] then [] else lines[0] + "\n" + Join(lines[1..])
  }

  /** overlay_ranges_text; an unsupported provenance is the source's ValueError. */
  function OverlayRangesText(funcs: seq<FuncId>, pair: Option<nat>, provenance: Option<string>): Option<string>
    requires forall f :: f in funcs ==> Printable(f)
  {
    if provenance.Some? && provenance.value != HOSTED && provenance.value != ORPHAN then None
    else Some(Join(HeadLines(pair, provenance) + FuncLines(funcs)))
  }

  function FoundProvenances(lines: seq<string>): seq<string> {
    if lines == [] then []
    else
      var raw := lines[0];
      var line := if raw != [] && raw[|raw|-1] == '\r' then raw[..|raw|-1] else raw;
      (if PROVENANCE_PREFIX <= line then [line[|PROVENANCE_PREFIX|..]] else []) + FoundProvenances(lines[1..])
  }

  /** manifest_provenance */
  function Provenance(manifest: string): Option<string> {
    var found := FoundProvenances(Split(manifest));
    if |found| == 1 && (found[0] == HOSTED || found[0] == ORPHAN) then Some(found[0]) else None
  }

  /** manifest_declares_supplemental_provenance */
  function DeclaresProvenance(manifest: string): bool {
    FoundProvenances(Split(manifest)) != []
  }
}
