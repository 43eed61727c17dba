/** Reading back what overlay_ranges_text wrote, and rewriting what the parser accepted. */
module ManifestRoundTrip {
  import opened Prelude
  import opened Hex
  import opened Manifest

  // ---- Lines -------------------------------------------------------------

  lemma {:induction false} SplitLine(line: string, rest: string)
    requires '\n' !in line
    ensures Split(line + "\n" + rest) == [line] + Split(rest)
  {
    var s := line + "\n" + rest;
    if line == [] {
      assert s[1..] == rest;
    } else {
      assert s[1..] == line[1..] + "\n" + rest;
      SplitLine(line[1..], rest);
      assert s[0] == line[0] && line[0] in line && [line[0]] + line[1..] == line;
    }
  }

  lemma {:induction false} SplitJoin(lines: seq<string>)
    requires forall l :: l in lines ==> '\n' !in l
    ensures Split(Join(lines)) == lines + [[]]
  {
    if lines != [] {
      SplitJoin(lines[1..]);
      SplitLine(lines[0], Join(lines[1..]));
    }
  }

  lemma {:induction false} JoinChars(lines: seq<string>, c: char)
    requires c != '\n' && forall l :: l in lines ==> c !in l
    ensures c !in Join(lines)
  {
    if lines != [] {
      JoinChars(lines[1..], c);
    }
  }

  lemma {:induction false} RunToSpace(w: string, rest: string)
    requires forall c :: c in w ==> !IsSpace(c)
    requires rest == [] || IsSpace(rest[0])
    ensures RunLength(w + rest) == |w|
  {
    if w == [] {
      assert w + rest == rest;
    } else {
      assert (w + rest)[1..] == w[1..] + rest;
      RunToSpace(w[1..], rest);
    }
  }

  lemma WordsOne(w: string)
    requires w != [] && forall c :: c in w ==> !IsSpace(c)
    ensures Words(w) == [w]
  {
    RunToSpace(w, []);
    assert w + [] == w;
    assert w[0] in w;
  }

  lemma WordsCons(w: string, rest: string)
    requires w != [] && forall c :: c in w ==> !IsSpace(c)
    ensures Words(w + " " + rest) == [w] + Words(rest)
  {
    var s := w + " " + rest;
    assert s == w + (" " + rest);
    RunToSpace(w, " " + rest);
    assert w[0] in w && s[0] == w[0];
    assert s[..|w|] == w && s[|w|..] == " " + rest && s[|w|..][1..] == rest;
  }

  lemma NoCr(line: string)
    requires '\r' !in line
    ensures Find(line, '\r') == |line|
  {
  }

  // ---- Records -----------------------------------------------------------

  lemma Pow16Values()
    ensures Pow16(8) == 0x1_0000_0000 && Pow16(6) == 0x100_0000
    ensures Pow16(16) == 0x1_0000_0000_0000_0000
  {
    assert Pow16(1) == 16 && Pow16(2) == 0x100 && Pow16(3) == 0x1000 && Pow16(4) == 0x1_0000;
    assert Pow16(5) == 0x10_0000 && Pow16(6) == 0x100_0000 && Pow16(7) == 0x1000_0000;
    assert Pow16(8) == 0x1_0000_0000;
    assert Pow16(9) == 0x10_0000_0000 && Pow16(10) == 0x100_0000_0000 && Pow16(11) == 0x1000_0000_0000;
    assert Pow16(12) == 0x1_0000_0000_0000 && Pow16(13) == 0x10_0000_0000_0000;
    assert Pow16(14) == 0x100_0000_0000_0000 && Pow16(15) == 0x1000_0000_0000_0000;
  }

  predicate Plain(line: string) {
    '\n' !in line && '\r' !in line && '\0' !in line
  }

  lemma HexPlain(s: string)
    requires AllHex(s)
    ensures Plain(s) && (s != [] ==> forall c :: c in s ==> !IsSpace(c))
  {
  }

  lemma PlainConcat(a: string, b: string)
    requires Plain(a) && Plain(b)
    ensures Plain(a + b)
  {
  }

  predicate Tag(tag: string) {
    |tag| == 1 && !IsSpace(tag[0]) && Plain(tag)
  }

  lemma OneField(tag: string, a: string)
    requires Tag(tag) && HexField(a, 16)
    ensures Words(tag + " " + a) == [tag, a] && Plain(tag + " " + a)
  {
    HexPlain(a);
    WordsCons(tag, a);
    WordsOne(a);
    PlainConcat(tag, " ");
    PlainConcat(tag + " ", a);
  }

  lemma TwoFields(tag: string, a: string, b: string)
    requires Tag(tag) && HexField(a, 16) && HexField(b, 16)
    ensures Words(tag + " " + a + " " + b) == [tag, a, b] && Plain(tag + " " + a + " " + b)
  {
    HexPlain(b);
    OneField(tag, a);
    PlainConcat(tag + " " + a, " ");
    PlainConcat(tag + " " + a + " ", b);
    TwoWords(tag, a, b);
  }

  lemma TwoWords(tag: string, a: string, b: string)
    requires Tag(tag) && HexField(a, 16) && HexField(b, 16)
    ensures Words(tag + " " + a + " " + b) == [tag, a, b]
  {
    var rest := a + " " + b;
    HexPlain(a);
    HexPlain(b);
    WordsCons(a, b);
    WordsOne(b);
    WordsCons(tag, rest);
    assert tag + " " + a + " " + b == tag + " " + rest;
  }

  lemma ReadFuncRecord(st: Scan, line: string, a: string, b: string)
    requires |line| <= LINE_MAX && Plain(line) && Words(line) == ["F", a, b]
    requires HexField(a, 8) && HexField(b, 8)
    ensures ReadRecord(st, line) ==
            Some(st.(funcs := st.funcs + [FuncId(Canonical(Value(a)), Value(b), [])]))
  {
    NoCr(line);
    assert Words(line)[0] == "F" && "F" != "P";
  }

  lemma Field8(n: nat)
    requires n < 0x1_0000_0000
    ensures HexField(Format(n, 8), 8) && Value(Format(n, 8)) == n
  {
    Pow16Values();
    FormatWidth(n, 8);
    FormatValue(n, 8);
  }

  lemma CanonicalOfEntry(e: int)
    requires 0x8000_0000 <= e < 0xA000_0000
    ensures Canonical(e) == e
  {
  }

  lemma ReadFuncFields(st: Scan, f: FuncId, a: string, b: string)
    requires 0x8000_0000 <= f.entry < 0xA000_0000 && FuncLine(f) == "F" + " " + a + " " + b
    requires HexField(a, 8) && HexField(b, 8) && Value(a) == f.entry && Value(b) == f.crc % 0x1_0000_0000
    ensures ReadRecord(st, FuncLine(f)) ==
            Some(st.(funcs := st.funcs + [FuncId(f.entry, f.crc % 0x1_0000_0000, [])]))
    ensures Plain(FuncLine(f))
  {
    TwoFields("F", a, b);
    CanonicalOfEntry(f.entry);
    ReadFuncRecord(st, FuncLine(f), a, b);
  }

  lemma ReadFunc(st: Scan, f: FuncId)
    requires 0x8000_0000 <= f.entry < 0xA000_0000
    ensures ReadRecord(st, FuncLine(f)) ==
            Some(st.(funcs := st.funcs + [FuncId(f.entry, f.crc % 0x1_0000_0000, [])]))
    ensures Plain(FuncLine(f))
  {
    var crc := f.crc % 0x1_0000_0000;
    Field8(f.entry);
    Field8(crc);
    ReadFuncFields(st, f, Format(f.entry, 8), Format(crc, 8));
  }

  function CanonicalRange(r: Range): Range {
    Range(Canonical(r.start), r.length)
  }

  function Extended(st: Scan, ranges: seq<Range>): Scan
    requires st.funcs != []
  {
    var last := st.funcs[|st.funcs|-1];
    st.(funcs := st.funcs[..|st.funcs|-1] + [last.(ranges := last.ranges + ranges)])
  }

  lemma ReadRangeRecord(st: Scan, line: string, a: string, b: string)
    requires st.funcs != [] && |line| <= LINE_MAX && Plain(line) && Words(line) == ["R", a, b]
    requires HexField(a, 8) && HexField(b, 8)
    ensures ReadRecord(st, line) == Some(Extended(st, [Range(Value(a), Value(b))]))
  {
    NoCr(line);
    assert Words(line)[0] == "R" && "R" != "P" && "R" != "F";
  }

  lemma ReadRangeFields(st: Scan, r: Range, a: string, b: string)
    requires st.funcs != [] && r.length >= 0 && RangeLine(r) == "R" + " " + a + " " + b
    requires HexField(a, 8) && HexField(b, 8) && Value(a) == Canonical(r.start) && Value(b) == r.length
    ensures ReadRecord(st, RangeLine(r)) == Some(Extended(st, [CanonicalRange(r)]))
    ensures Plain(RangeLine(r))
  {
    TwoFields("R", a, b);
    ReadRangeRecord(st, RangeLine(r), a, b);
  }

  lemma ReadRange(st: Scan, r: Range)
    requires st.funcs != [] && RangeInRam(r)
    ensures ReadRecord(st, RangeLine(r)) == Some(Extended(st, [CanonicalRange(r)]))
    ensures Plain(RangeLine(r))
  {
    Pow16Values();
    Field8(Canonical(r.start));
    FormatShort(r.length, 6);
    FormatValue(r.length, 0);
    ReadRangeFields(st, r, Format(Canonical(r.start), 8), Format(r.length, 0));
  }

  lemma ReadPair(st: Scan, pair: nat)
    requires pair < 0x1_0000_0000_0000_0000
    ensures ReadRecord(st, "P " + Format(pair, 16)) == Some(st.(pairIds := st.pairIds + [pair]))
    ensures Plain("P " + Format(pair, 16))
  {
    var a := Format(pair, 16);
    Pow16Values();
    FormatWidth(pair, 16);
    FormatValue(pair, 16);
    OneField("P", a);
    assert "P" + " " + a == "P " + a;
    NoCr("P " + a);
  }

  lemma ReadComment(st: Scan, line: string)
    requires Comment(line)
    ensures ReadRecord(st, line) == Some(st)
  {
    NoCr(line);
    assert line == "#" + " " + line[2..];
    WordsCons("#", line[2..]);
  }

  // ---- Lists -------------------------------------------------------------

  lemma {:induction false} ReadAppend(st: Scan, xs: seq<string>, ys: seq<string>)
    ensures ReadRecords(st, xs + ys) ==
            match ReadRecords(st, xs) case None => None case Some(mid) => ReadRecords(mid, ys)
    decreases |xs|
  {
    if xs == [] {
      assert xs + ys == ys;
    } else {
      assert (xs + ys)[1..] == xs[1..] + ys;
      match ReadRecord(st, xs[0]) {
        case None =>
        case Some(next) => ReadAppend(next, xs[1..], ys);
      }
    }
  }

  function CanonicalRanges(ranges: seq<Range>): seq<Range> {
    seq(|ranges|, i requires 0 <= i < |ranges| => CanonicalRange(ranges[i]))
  }

  function CanonicalId(f: FuncId): FuncId {
    FuncId(f.entry, f.crc % 0x1_0000_0000, CanonicalRanges(f.ranges))
  }

  function CanonicalIds(funcs: seq<FuncId>): seq<FuncId> {
    seq(|funcs|, i requires 0 <= i < |funcs| => CanonicalId(funcs[i]))
  }

  lemma {:induction false} ReadRanges(st: Scan, ranges: seq<Range>)
    requires st.funcs != [] && forall r :: r in ranges ==> RangeInRam(r)
    ensures forall r :: r in ranges ==> r.length >= 0
    ensures ReadRecords(st, RangeLines(ranges)) == Some(Extended(st, CanonicalRanges(ranges)))
    ensures forall l :: l in RangeLines(ranges) ==> Plain(l)
    decreases |ranges|
  {
    if ranges == [] {
      ExtendedByNothing(st);
    } else {
      ReadRange(st, ranges[0]);
      ReadRanges(Extended(st, [CanonicalRange(ranges[0])]), ranges[1..]);
      ExtendedTwice(st, [CanonicalRange(ranges[0])], CanonicalRanges(ranges[1..]));
      assert CanonicalRanges(ranges) == [CanonicalRange(ranges[0])] + CanonicalRanges(ranges[1..]);
      assert RangeLines(ranges)[1..] == RangeLines(ranges[1..]);
    }
  }

  lemma ExtendedByNothing(st: Scan)
    requires st.funcs != []
    ensures Extended(st, []) == st
  {
    var last := st.funcs[|st.funcs|-1];
    assert last.ranges + [] == last.ranges;
    assert st.funcs[..|st.funcs|-1] + [last] == st.funcs;
  }

  lemma ExtendedTwice(st: Scan, xs: seq<Range>, ys: seq<Range>)
    requires st.funcs != []
    ensures Extended(st, xs).funcs != [] && Extended(Extended(st, xs), ys) == Extended(st, xs + ys)
  {
    var last := st.funcs[|st.funcs|-1];
    assert Extended(st, xs).funcs[..|st.funcs|-1] == st.funcs[..|st.funcs|-1];
    assert last.ranges + xs + ys == last.ranges + (xs + ys);
  }

  predicate CanonicalEntries(funcs: seq<FuncId>) {
    forall f :: f in funcs ==> 0x8000_0000 <= f.entry < 0xA000_0000
  }

  lemma ReadOneFunc(st: Scan, f: FuncId)
    requires 0x8000_0000 <= f.entry < 0xA000_0000 && Printable(f) && Representable(f)
    ensures ReadRecords(st, [FuncLine(f)] + RangeLines(f.ranges))
         == Some(st.(funcs := st.funcs + [CanonicalId(f)]))
    ensures forall l :: l in [FuncLine(f)] + RangeLines(f.ranges) ==> Plain(l)
  {
    var head := FuncId(f.entry, f.crc % 0x1_0000_0000, []);
    var s1 := st.(funcs := st.funcs + [head]);
    ReadFunc(st, f);
    ReadRanges(s1, f.ranges);
    assert s1.funcs[..|s1.funcs|-1] == st.funcs;
    assert head.ranges + CanonicalRanges(f.ranges) == CanonicalRanges(f.ranges);
    ReadOne(st, FuncLine(f));
    ReadAppend(st, [FuncLine(f)], RangeLines(f.ranges));
  }

  lemma {:induction false} ReadFuncs(st: Scan, funcs: seq<FuncId>)
    requires CanonicalEntries(funcs) && forall f :: f in funcs ==> Printable(f) && Representable(f)
    ensures ReadRecords(st, FuncLines(funcs)) == Some(st.(funcs := st.funcs + CanonicalIds(funcs)))
    ensures forall l :: l in FuncLines(funcs) ==> Plain(l)
    decreases |funcs|
  {
    if funcs == [] {
      assert st.funcs + CanonicalIds(funcs) == st.funcs;
    } else {
      var f := funcs[0];
      assert Printable(f) && Representable(f);
      ReadOneFunc(st, f);
      var next := st.(funcs := st.funcs + [CanonicalId(f)]);
      ReadFuncs(next, funcs[1..]);
      ReadAppend(st, [FuncLine(f)] + RangeLines(f.ranges), FuncLines(funcs[1..]));
      assert CanonicalIds(funcs) == [CanonicalId(f)] + CanonicalIds(funcs[1..]);
      assert st.funcs + [CanonicalId(f)] + CanonicalIds(funcs[1..]) == st.funcs + CanonicalIds(funcs);
    }
  }

  predicate KnownProvenance(provenance: Option<string>) {
    provenance == None || provenance == Some(HOSTED) || provenance == Some(ORPHAN)
  }

  lemma CommentPlain()
    ensures Plain(COMMENT) && |COMMENT| == 20 && COMMENT[..2] == "# "
  {
    PlainConcat("# ", "psxrecomp ");
    PlainConcat("# " + "psxrecomp ", "overlay ");
  }

  predicate Comment(line: string) {
    |line| > 2 && line[..2] == "# " && Plain(line) && |line| <= LINE_MAX
  }

  lemma ProvenanceLine(p: string)
    requires p == HOSTED || p == ORPHAN
    ensures var l := PROVENANCE_PREFIX + p;
      Comment(l) && PROVENANCE_PREFIX <= l && l[|PROVENANCE_PREFIX|..] == p && l[|l|-1] == '1'
  {
    CommentPlain();
    PlainConcat(COMMENT, "provenance ");
    assert Plain(p);
    PlainConcat(PROVENANCE_PREFIX, p);
  }

  lemma HeaderLine()
    ensures Comment(HEADER) && !(PROVENANCE_PREFIX <= HEADER) && HEADER[|HEADER|-1] == ')'
  {
    CommentPlain();
    PlainConcat(COMMENT, "code-range ");
    PlainConcat(COMMENT + "code-range ", "manifest ");
    PlainConcat(COMMENT + "code-range " + "manifest ", "v2 ");
    PlainConcat(COMMENT + "code-range " + "manifest " + "v2 ", "(entry+");
    PlainConcat(COMMENT + "code-range " + "manifest " + "v2 " + "(entry+", "code_crc)");
    assert HEADER[20] == 'c' && PROVENANCE_PREFIX[20] == 'p';
  }

  function Masked(pair: Option<nat>): Option<nat> {
    match pair case None => None case Some(p) => Some(p % 0x1_0000_0000_0000_0000)
  }

  function ToSeq(pair: Option<nat>): seq<nat> {
    match Masked(pair) case None => [] case Some(p) => [p]
  }

  lemma ReadOne(st: Scan, line: string)
    ensures ReadRecords(st, [line]) == ReadRecord(st, line)
  {
    assert [line][1..] == [];
  }

  function ProvenanceLines(provenance: Option<string>): seq<string> {
    if provenance.Some? then [PROVENANCE_PREFIX + provenance.value] else []
  }

  function PairLines(pair: Option<nat>): seq<string> {
    if pair.Some? then ["P " + Format(pair.value % 0x1_0000_0000_0000_0000, 16)] else []
  }

  lemma ReadProvenance(st: Scan, provenance: Option<string>)
    requires KnownProvenance(provenance)
    ensures ReadRecords(st, ProvenanceLines(provenance)) == Some(st)
    ensures forall l :: l in ProvenanceLines(provenance) ==> Plain(l)
  {
    if provenance.Some? {
      var l := PROVENANCE_PREFIX + provenance.value;
      ProvenanceLine(provenance.value);
      ReadComment(st, l);
      ReadOne(st, l);
    }
  }

  lemma ReadPairLines(st: Scan, pair: Option<nat>)
    ensures ReadRecords(st, PairLines(pair)) == Some(st.(pairIds := st.pairIds + ToSeq(pair)))
    ensures forall l :: l in PairLines(pair) ==> Plain(l)
  {
    if pair.Some? {
      var p := pair.value % 0x1_0000_0000_0000_0000;
      ReadPair(st, p);
      ReadOne(st, "P " + Format(p, 16));
    } else {
      assert st.pairIds + [] == st.pairIds;
    }
  }

  lemma ReadHead(pair: Option<nat>, provenance: Option<string>)
    requires KnownProvenance(provenance)
    ensures HeadLines(pair, provenance) == [HEADER] + ProvenanceLines(provenance) + PairLines(pair)
    ensures ReadRecords(Scan([], []), HeadLines(pair, provenance)) == Some(Scan(ToSeq(pair), []))
    ensures forall l :: l in HeadLines(pair, provenance) ==> Plain(l)
  {
    var s0 := Scan([], []);
    HeaderLine();
    ReadComment(s0, HEADER);
    ReadOne(s0, HEADER);
    ReadProvenance(s0, provenance);
    ReadPairLines(s0, pair);
    assert [] + ToSeq(pair) == ToSeq(pair);
    ReadAppend(s0, [HEADER], ProvenanceLines(provenance));
    ReadAppend(s0, [HEADER] + ProvenanceLines(provenance), PairLines(pair));
  }

  lemma CanonicalContract(funcs: seq<FuncId>)
    requires RuntimeContract(funcs)
    ensures RuntimeContract(CanonicalIds(funcs))
  {
    var out := CanonicalIds(funcs);
    forall g | g in out ensures Representable(g) {
      var i :| 0 <= i < |funcs| && out[i] == g;
      var f := funcs[i];
      assert Representable(f);
      var r :| r in f.ranges && Contains(r, f.entry);
      var j :| 0 <= j < |f.ranges| && f.ranges[j] == r;
      assert g.ranges[j] == CanonicalRange(r) && Contains(g.ranges[j], g.entry);
      forall q | q in g.ranges ensures RangeInRam(q) {
        var n :| 0 <= n < |g.ranges| && g.ranges[n] == q;
        assert RangeInRam(f.ranges[n]);
      }
    }
  }

  lemma NoCharIn(lines: seq<string>)
    requires forall l :: l in lines ==> Plain(l)
    ensures Split(Join(lines)) == lines + [[]] && '\0' !in Join(lines)
  {
    SplitJoin(lines);
    JoinChars(lines, '\0');
  }

  lemma ContractPrintable(funcs: seq<FuncId>)
    requires RuntimeContract(funcs) && CanonicalEntries(funcs)
    ensures forall f :: f in funcs ==> Printable(f) && Representable(f)
  {
    forall f | f in funcs ensures Printable(f) {
      assert Representable(f);
    }
  }

  /** parse(print(ids)) returns the pair id and the identities with canonical range starts. */
  lemma ParseOfPrint(funcs: seq<FuncId>, pair: Option<nat>, provenance: Option<string>, requirePair: bool)
    requires RuntimeContract(funcs) && CanonicalEntries(funcs) && KnownProvenance(provenance)
    requires requirePair ==> pair.Some?
    ensures forall f :: f in funcs ==> Printable(f)
    ensures OverlayRangesText(funcs, pair, provenance).Some?
    ensures Parse(OverlayRangesText(funcs, pair, provenance).value, requirePair)
         == Parsed(Masked(pair), CanonicalIds(funcs))
  {
    ContractPrintable(funcs);
    var s0 := Scan([], []);
    var head, body := HeadLines(pair, provenance), FuncLines(funcs);
    ReadHead(pair, provenance);
    ReadFuncs(Scan(ToSeq(pair), []), funcs);
    assert [] + CanonicalIds(funcs) == CanonicalIds(funcs);
    ReadAppend(s0, head, body);
    var done := Scan(ToSeq(pair), CanonicalIds(funcs));
    assert ReadRecords(s0, head + body) == Some(done);
    NoCharIn(head + body);
    ReadAppend(s0, head + body, [[]]);
    assert ReadRecords(done, [[]]) == Some(done) by {
      var empty: seq<string> := [[]];
      assert empty[1..] == [] && Words([]) == [];
      assert ReadRecord(done, []) == Some(done);
    }
    CanonicalContract(funcs);
  }

  predicate NoComment(lines: seq<string>) {
    forall l :: l in lines ==> l == [] || l[0] != '#'
  }

  lemma {:induction false} NoProvenanceIn(lines: seq<string>)
    requires NoComment(lines)
    ensures FoundProvenances(lines) == []
  {
    if lines != [] {
      NoProvenanceIn(lines[1..]);
    }
  }

  lemma {:induction false} RangeLinesHead(ranges: seq<Range>)
    requires forall r :: r in ranges ==> r.length >= 0
    ensures forall l :: l in RangeLines(ranges) ==> l != [] && l[0] == 'R'
  {
    if ranges != [] { RangeLinesHead(ranges[1..]); }
  }

  lemma {:induction false} FuncLinesHead(funcs: seq<FuncId>)
    requires forall f :: f in funcs ==> Printable(f)
    ensures NoComment(FuncLines(funcs))
  {
    if funcs != [] {
      assert Printable(funcs[0]);
      RangeLinesHead(funcs[0].ranges);
      FuncLinesHead(funcs[1..]);
    }
  }

  lemma NoProvenanceAfterHead(funcs: seq<FuncId>, pair: Option<nat>)
    requires forall f :: f in funcs ==> Printable(f)
    ensures FoundProvenances(PairLines(pair) + FuncLines(funcs) + [[]]) == []
  {
    FuncLinesHead(funcs);
    assert NoComment(PairLines(pair) + FuncLines(funcs));
    NoProvenanceIn(PairLines(pair) + FuncLines(funcs) + [[]]);
  }

  lemma FoundInText(lines: seq<string>, pair: Option<nat>, provenance: Option<string>)
    requires KnownProvenance(provenance) && FoundProvenances(lines) == []
    ensures FoundProvenances([HEADER] + (ProvenanceLines(provenance) + lines)) ==
            if provenance.Some? then [provenance.value] else []
  {
    HeaderLine();
    FoundCons(HEADER, ProvenanceLines(provenance) + lines);
    if provenance.Some? {
      ProvenanceLine(provenance.value);
      FoundCons(PROVENANCE_PREFIX + provenance.value, lines);
    } else {
      assert ProvenanceLines(provenance) + lines == lines;
    }
  }

  lemma Regroup<T>(a: seq<T>, b: seq<T>, c: seq<T>, d: seq<T>, e: seq<T>)
    ensures a + b + c + d + e == a + (b + (c + d + e))
  {
  }

  lemma TextLines(funcs: seq<FuncId>, pair: Option<nat>, provenance: Option<string>)
    requires RuntimeContract(funcs) && CanonicalEntries(funcs) && KnownProvenance(provenance)
    ensures forall f :: f in funcs ==> Printable(f)
    ensures OverlayRangesText(funcs, pair, provenance).Some?
    ensures Split(OverlayRangesText(funcs, pair, provenance).value)
         == [HEADER] + (ProvenanceLines(provenance) + (PairLines(pair) + FuncLines(funcs) + [[]]))
  {
    ContractPrintable(funcs);
    var head, body := HeadLines(pair, provenance), FuncLines(funcs);
    ReadHead(pair, provenance);
    ReadFuncs(Scan([], []), funcs);
    NoCharIn(head + body);
    Regroup([HEADER], ProvenanceLines(provenance), PairLines(pair), body, [[]]);
  }

  /** The provenance that was written is the provenance that is read, and none is invented. */
  lemma ProvenanceOfPrint(funcs: seq<FuncId>, pair: Option<nat>, provenance: Option<string>)
    requires RuntimeContract(funcs) && CanonicalEntries(funcs) && KnownProvenance(provenance)
    ensures forall f :: f in funcs ==> Printable(f)
    ensures OverlayRangesText(funcs, pair, provenance).Some?
    ensures Provenance(OverlayRangesText(funcs, pair, provenance).value) == provenance
    ensures DeclaresProvenance(OverlayRangesText(funcs, pair, provenance).value) <==> provenance.Some?
  {
    TextLines(funcs, pair, provenance);
    NoProvenanceAfterHead(funcs, pair);
    FoundInText(PairLines(pair) + FuncLines(funcs) + [[]], pair, provenance);
  }

  lemma FoundCons(line: string, rest: seq<string>)
    requires line != [] && line[|line|-1] != '\r'
    ensures FoundProvenances([line] + rest) ==
      (if PROVENANCE_PREFIX <= line then [line[|PROVENANCE_PREFIX|..]] else []) + FoundProvenances(rest)
  {
    assert ([line] + rest)[1..] == rest;
  }

  // ---- The other direction -----------------------------------------------

  lemma {:induction false} ReadEntries(st: Scan, lines: seq<string>)
    requires CanonicalEntries(st.funcs)
    ensures ReadRecords(st, lines).Some? ==> CanonicalEntries(ReadRecords(st, lines).value.funcs)
    decreases |lines|
  {
    if lines != [] {
      match ReadRecord(st, lines[0]) {
        case None =>
        case Some(next) => ReadEntries(next, lines[1..]);
      }
    }
  }

  /** Whatever text the parser accepts describes identities the runtime can represent. */
  lemma AcceptedIsRepresentable(manifest: string, requirePair: bool)
    requires Parse(manifest, requirePair) != REJECTED
    ensures RuntimeContract(Parse(manifest, requirePair).funcs)
    ensures CanonicalEntries(Parse(manifest, requirePair).funcs)
    ensures requirePair ==> Parse(manifest, requirePair).pair.Some?
  {
    ReadEntries(Scan([], []), Split(manifest));
  }

  /** Rewriting an accepted manifest and reading it again changes only the spelling of range starts. */
  lemma RewriteOfAccepted(manifest: string, requirePair: bool, provenance: Option<string>)
    requires Parse(manifest, requirePair) != REJECTED && KnownProvenance(provenance)
    ensures var r := Parse(manifest, requirePair);
      && (forall f :: f in r.funcs ==> Printable(f))
      && Parse(OverlayRangesText(r.funcs, r.pair, provenance).value, requirePair)
         == Parsed(Masked(r.pair), CanonicalIds(r.funcs))
  {
    AcceptedIsRepresentable(manifest, requirePair);
    var r := Parse(manifest, requirePair);
    ParseOfPrint(r.funcs, r.pair, provenance, requirePair);
  }
}
