/** A cache in which an admitted publication breaks the limit: its DLL fails the ABI preflight. */
module CacheExamples {
  import opened Prelude
  import opened Hex
  import opened Manifest
  import opened ManifestRoundTrip
  import opened ShardStore
  import opened CacheInventory
  import opened CachePublication

  // ---- What is printed is ASCII ----------------------------------------------

  predicate AsciiLines(lines: seq<string>) { forall l :: l in lines ==> Ascii(l) }

  lemma AsciiConcat(a: string, b: string)
    requires Ascii(a) && Ascii(b)
    ensures Ascii(a + b)
  {
  }

  lemma {:induction false} JoinAscii(lines: seq<string>)
    requires AsciiLines(lines)
    ensures Ascii(Join(lines))
  {
    if lines != [] {
      JoinAscii(lines[1..]);
      AsciiConcat(lines[0], "\n");
      AsciiConcat(lines[0] + "\n", Join(lines[1..]));
    }
  }

  lemma HexAscii(s: string)
    requires AllHex(s)
    ensures Ascii(s)
  {
  }

  lemma FieldsAscii(tag: string, a: string, b: string)
    requires Ascii(tag) && AllHex(a) && AllHex(b)
    ensures Ascii(tag + a + " " + b)
  {
    HexAscii(a);
    HexAscii(b);
    AsciiConcat(tag, a);
    AsciiConcat(tag + a, " ");
    AsciiConcat(tag + a + " ", b);
  }

  lemma {:induction false} RangesAscii(ranges: seq<Range>)
    requires forall r :: r in ranges ==> r.length >= 0
    ensures AsciiLines(RangeLines(ranges))
  {
    if ranges != [] {
      FieldsAscii("R ", Format(Canonical(ranges[0].start), 8), Format(ranges[0].length, 0));
      RangesAscii(ranges[1..]);
    }
  }

  lemma {:induction false} FuncsAscii(funcs: seq<FuncId>)
    requires forall f :: f in funcs ==> Printable(f)
    ensures AsciiLines(FuncLines(funcs))
  {
    if funcs != [] {
      assert Printable(funcs[0]);
      FieldsAscii("F ", Format(funcs[0].entry, 8), Format(funcs[0].crc % 0x1_0000_0000, 8));
      RangesAscii(funcs[0].ranges);
      FuncsAscii(funcs[1..]);
    }
  }

  lemma HeaderAscii()
    ensures Ascii(HEADER)
  {
    AsciiConcat("# ", "psxrecomp ");
    AsciiConcat("# " + "psxrecomp ", "overlay ");
    AsciiConcat(COMMENT, "code-range ");
    AsciiConcat(COMMENT + "code-range ", "manifest ");
    AsciiConcat(COMMENT + "code-range " + "manifest ", "v2 ");
    AsciiConcat(COMMENT + "code-range " + "manifest " + "v2 ", "(entry+");
    AsciiConcat(COMMENT + "code-range " + "manifest " + "v2 " + "(entry+", "code_crc)");
  }

  lemma HeadAscii(pair: nat)
    ensures AsciiLines(HeadLines(Some(pair), None))
  {
    var id := Format(pair % 0x1_0000_0000_0000_0000, 16);
    HeaderAscii();
    HexAscii(id);
    AsciiConcat("P ", id);
    assert HeadLines(Some(pair), None) == [HEADER, "P " + id];
  }

  /** The text of an unsupplemented manifest with a pair id. */
  function Print(funcs: seq<FuncId>, pair: nat): string
    requires forall f :: f in funcs ==> Printable(f)
  {
    Join(HeadLines(Some(pair), None) + FuncLines(funcs))
  }

  lemma PrintAscii(funcs: seq<FuncId>, pair: nat)
    requires forall f :: f in funcs ==> Printable(f)
    ensures Ascii(Print(funcs, pair))
  {
    HeadAscii(pair);
    FuncsAscii(funcs);
    JoinAscii(HeadLines(Some(pair), None) + FuncLines(funcs));
  }

  // ---- One function, two functions -----------------------------------------------

  function At(entry: int): FuncId { FuncId(entry, 0, [Range(entry, 4)]) }

  const ONE := [At(0x8001_0000)]
  const TWO := [At(0x8001_0000), At(0x8002_0000)]

  predicate Sample(funcs: seq<FuncId>) { funcs == ONE || funcs == TWO }

  lemma SampleContract(funcs: seq<FuncId>)
    requires Sample(funcs)
    ensures RuntimeContract(funcs) && CanonicalEntries(funcs) && CanonicalIds(funcs) == funcs
    ensures forall f :: f in funcs ==> Printable(f)
  {
    forall f | f in funcs ensures Representable(f) && CanonicalId(f) == f && Printable(f) {
      assert f == At(0x8001_0000) || f == At(0x8002_0000);
      assert f.ranges[0] in f.ranges && Contains(f.ranges[0], f.entry);
      assert CanonicalRanges(f.ranges) == f.ranges;
    }
    assert CanonicalIds(funcs) == funcs;
  }

  function Dll(abi: nat, entries: set<int>): Digest { Sha256(Image(Some(abi), Some(1), true, entries)) }

  ghost function PairOf(abi: nat, funcs: seq<FuncId>): Pair
    requires Sample(funcs)
  {
    SampleContract(funcs);
    Pair(Some(Dll(abi, EntriesOf(funcs))), Some(Sha256(Text(Print(funcs, 1)))))
  }

  lemma SampleParses(funcs: seq<FuncId>, abi: nat)
    requires Sample(funcs)
    ensures StagedManifest(PairOf(abi, funcs))
    ensures Parse(PairOf(abi, funcs).ranges.value.of.text, true) == Parsed(Some(1), funcs)
    ensures Parse(PairOf(abi, funcs).ranges.value.of.text, false) == Parsed(Some(1), funcs)
  {
    SampleContract(funcs);
    PrintAscii(funcs, 1);
    ParseOfPrint(funcs, Some(1), None, true);
    ParseOfPrint(funcs, Some(1), None, false);
  }

  lemma OwnExports(abi: nat, entries: set<int>)
    ensures ExportsMatch(Dll(abi, entries), Some(abi), Some(1), entries)
  {
  }

  /** A valid sample costs its functions; nothing else matters here. */
  lemma SampleEntry(tier: nat, funcs: seq<FuncId>)
    requires Sample(funcs)
    ensures EntryOf(tier, PairOf(1, funcs), Some(1)).count == |funcs|
  {
    var p := PairOf(1, funcs);
    var r := Parsed(Some(1), funcs);
    assert StagedManifest(p) && r == Parse(p.ranges.value.of.text, false) by { SampleParses(funcs, 1); }
    assert ExportsMatch(p.dll.value, Some(1), r.pair, EntriesOf(r.funcs)) by { OwnExports(1, EntriesOf(funcs)); }
    SampleCounts(tier, p, r);
  }

  lemma SampleCounts(tier: nat, p: Pair, r: Parsed)
    requires p.dll.Some? && StagedManifest(p) && r == Parse(p.ranges.value.of.text, false) && r.funcs != []
    requires ExportsMatch(p.dll.value, Some(1), r.pair, EntriesOf(r.funcs))
    ensures EntryOf(tier, p, Some(1)).count == |r.funcs|
  {
  }

  // ---- The cache -------------------------------------------------------------------

  const NAME := "00000000_00000000"
  const FRONT := Slot(0, NAME)
  const BEHIND := Slot(1, NAME)

  /** One function in front, and the pair with two functions that it shadows. */
  ghost function Cached(): Cache { map[FRONT := PairOf(1, ONE), BEHIND := PairOf(1, TWO)] }

  lemma NameIsCanonical()
    ensures CanonicalName(NAME)
  {
  }

  lemma FrontIsChosen()
    ensures Chosen(Cached(), 2, Some(1), FRONT) && Selection(Cached(), 2, Some(1)) == map[FRONT := EntryOf(0, PairOf(1, ONE), Some(1))]
    ensures Successor(Cached(), 2, Some(1), FRONT) == Some(BEHIND)
  {
    NameIsCanonical();
    var c := Cached();
    assert Indexed(c, 2, Some(1), FRONT) && Indexed(c, 2, Some(1), BEHIND);
    assert !Chosen(c, 2, Some(1), BEHIND) by { assert Indexed(c, 2, Some(1), Slot(0, BEHIND.name)); }
  }

  lemma EmptyUsage()
    ensures UsageOf(map[]) == Usage(0, 0, 0, 0) && Identities(map[]) == {}
  {
  }

  lemma OneEntryUsage(e: Entry)
    requires Honest(e)
    ensures UsageOf(map[FRONT := e]) == Usage(e.count, e.raw, e.links, 1)
  {
    EmptyUsage();
    AddedUsage(map[], FRONT, e);
  }

  lemma FrontUsage()
    ensures var e := EntryOf(0, PairOf(1, ONE), Some(1)); Honest(e) && e.count == 1 && e.raw == 1 && e.links == LinkCount(ONE)
    ensures var e := StagedEntry(0, PairOf(2, ONE).ranges.value.of.text); Honest(e) && e.count == 1 && e.raw == 1 && e.links == LinkCount(ONE)
  {
    SampleEntry(0, ONE);
    SampleParses(ONE, 1);
    SampleParses(ONE, 2);
  }

  lemma FrontReplaced(es: Entries, e: Entry, staged: Entry)
    requires es == map[FRONT := e]
    ensures !ShadowedBy(es, FRONT) && Projected(es, FRONT, staged) == map[FRONT := staged]
  {
    assert es - SameName(es, NAME) == map[];
  }

  lemma FrontCosts()
    ensures UsageIn(Cached(), 2, Some(1)) == Usage(1, 1, LinkCount(ONE), 1)
  {
    FrontIsChosen();
    FrontUsage();
    OneEntryUsage(EntryOf(0, PairOf(1, ONE), Some(1)));
  }

  lemma FrontProjects(staged: Entry)
    requires staged == StagedEntry(0, PairOf(2, ONE).ranges.value.of.text)
    ensures ProjectedUsage(Cached(), 2, Some(1), FRONT, PairOf(2, ONE).ranges.value.of.text) == Usage(1, 1, LinkCount(ONE), 1)
  {
    var es := Selection(Cached(), 2, Some(1));
    assert es == map[FRONT := EntryOf(0, PairOf(1, ONE), Some(1))] by { FrontIsChosen(); }
    FrontReplaced(es, EntryOf(0, PairOf(1, ONE), Some(1)), staged);
    assert UsageOf(map[FRONT := staged]) == Usage(1, 1, LinkCount(ONE), 1) by {
      FrontUsage();
      OneEntryUsage(staged);
    }
  }

  lemma TwoCost(e: Entry)
    requires e.count == 2
    ensures Plus(UsageOf(map[]), e, Identities(map[])).candidates == 2
  {
    EmptyUsage();
  }

  lemma TwoDoNotFit()
    ensures !ReturnFits(Cached(), 2, Some(1), FRONT, 1)
  {
    assert Successor(Cached(), 2, Some(1), FRONT) == Some(BEHIND) && Selection(Cached(), 2, Some(1)) - {FRONT} == map[] by {
      FrontIsChosen();
    }
    FrontCosts();
    var e := EntryOf(1, PairOf(1, TWO), Some(1));
    assert e.count == 2 by { SampleEntry(1, TWO); }
    TwoCost(e);
  }

  /**
   A pair whose DLL has the wrong ABI, staged over a visible pair of the same rows: the projection counts one
   candidate and the verdict admits it under a limit of one, and the cache then has two.
   */
  lemma RejectedInstallExample() returns (c: Cache, offer: Pair)
    ensures StagedManifest(offer) && offer.dll.Some? && !StagedAbi(offer, Some(1))
    ensures CapacityVerdict(UsageIn(c, 2, Some(1)), ProjectedUsage(c, 2, Some(1), FRONT, offer.ranges.value.of.text), 1) == Fits
    ensures !Bounded(UsageIn(c[FRONT := offer], 2, Some(1)), UsageIn(c, 2, Some(1)), 1)
  {
    c, offer := Cached(), PairOf(2, ONE);
    SampleParses(ONE, 2);
    FrontCosts();
    FrontProjects(StagedEntry(0, PairOf(2, ONE).ranges.value.of.text));
    FrontIsChosen();
    TwoDoNotFit();
    AdmissionExactly(c, 2, Some(1), FRONT, offer, 1);
  }
}
