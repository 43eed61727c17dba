/** What compaction promises: no evidence lost, the same bytes at the same addresses, and a fixed point. */
module CompactionLaws {
  import opened Prelude
  import opened BitWords
  import opened Sorting
  import opened CompactRegion

  /** An accepted capture, with what was read from it. */
  ghost predicate Reads(r: Region, drop: bool, e: Extent, k: Kept) {
    ExtentOf(r) == Ok(e) && ParseFields(e, r, drop, |FIELDS|) == Ok(k)
  }

  // ---- What is accepted ----------------------------------------------------

  /** The value is this address: a number, or the text of one that is not negative. */
  predicate Says(i: Item, a: int) { i == Number(a) || (i == HexText(a) && a >= 0) }

  /** A word of the capture, through every mirror of the two megabytes of RAM. */
  predicate InCapture(e: Extent, a: int) {
    e.load % 0x20_0000 <= a % 0x20_0000 < e.load % 0x20_0000 + |e.image| && a % 0x20_0000 % 4 == 0
  }

  /** What a capture must be: an address, bytes of the given size, at least one, that end within RAM. */
  lemma ExtentExactly(r: Region, e: Extent)
    ensures ExtentOf(r) == Ok(e) <==>
      && Says(r.load, e.load) && r.image == Some(e.image) && r.size == Some(|e.image|)
      && |e.image| > 0 && e.load % 0x20_0000 + |e.image| <= 0x20_0000
  {
  }

  lemma FitsExactly(e: Extent, i: Item, a: int)
    ensures Says(i, a) <==> Address(i) == Some(a)
    ensures InCapture(e, a) <==> Fits(e, a)
  {
  }

  ghost predicate Acceptable(e: Extent, i: Item, drop: bool) { exists a :: Says(i, a) && (drop || InCapture(e, a)) }

  predicate Mentions(e: Extent, items: seq<Item>, i: nat, a: int) { i < |items| && Says(items[i], a) && InCapture(e, a) }

  lemma AcceptableAddress(e: Extent, i: Item, drop: bool)
    ensures Acceptable(e, i, drop) <==> Address(i).Some? && (drop || Fits(e, Address(i).value))
  {
    if Address(i).Some? {
      FitsExactly(e, i, Address(i).value);
      if drop || Fits(e, Address(i).value) { assert Says(i, Address(i).value); }
    }
    if a :| Says(i, a) && (drop || InCapture(e, a)) { FitsExactly(e, i, a); }
  }

  /** A field is accepted exactly when each value is an address that fits or may be dropped; what fits is kept. */
  lemma {:induction false} ItemsKept(e: Extent, f: Field, items: seq<Item>, drop: bool)
    ensures ParseItems(e, f, items, drop).Ok? <==> forall i :: 0 <= i < |items| ==> Acceptable(e, items[i], drop)
    ensures ParseItems(e, f, items, drop).Ok? ==>
      forall a :: a in ParseItems(e, f, items, drop).value <==> exists i: nat :: Mentions(e, items, i, a)
    decreases |items|
  {
    if items != [] {
      var init, last := items[..|items|-1], items[|items|-1];
      ItemsKept(e, f, init, drop);
      assert forall i :: 0 <= i < |init| ==> items[i] == init[i];
      AcceptableAddress(e, last, drop);
      if ParseItems(e, f, items, drop).Ok? {
        KeptMembers(e, f, items, drop);
      }
    }
  }

  lemma KeptMembers(e: Extent, f: Field, items: seq<Item>, drop: bool)
    requires items != [] && ParseItems(e, f, items, drop).Ok?
    requires var init := items[..|items|-1];
      forall a :: a in ParseItems(e, f, init, drop).value <==> exists i: nat :: Mentions(e, init, i, a)
    ensures forall a :: a in ParseItems(e, f, items, drop).value <==> exists i: nat :: Mentions(e, items, i, a)
  {
    var n := |items| - 1;
    var init := items[..n];
    forall a ensures a in ParseItems(e, f, items, drop).value <==> exists i: nat :: Mentions(e, items, i, a) {
      FitsExactly(e, items[n], a);
      if i: nat :| Mentions(e, init, i, a) { assert Mentions(e, items, i, a); }
      if i: nat :| Mentions(e, items, i, a) {
        if i < n { assert Mentions(e, init, i, a); }
      }
      if Mentions(e, items, n, a) { assert a in ParseItems(e, f, items, drop).value; }
    }
  }

  lemma EveryField(f: Field)
    ensures f in FIELDS
  {
    assert FIELDS[0] == ExecutedPcs && FIELDS[1] == DispatchEntryPcs && FIELDS[2] == StaticDispatchEntryPcs;
    assert FIELDS[3] == FunctionEntryPcs && FIELDS[4] == SeedPcs;
  }

  /** The field, where the capture has it, is a list of acceptable values. */
  ghost predicate FieldAcceptable(e: Extent, r: Region, f: Field, drop: bool) {
    f in r.evidence ==> r.evidence[f].Items? && forall i :: 0 <= i < |r.evidence[f].items| ==> Acceptable(e, r.evidence[f].items[i], drop)
  }

  lemma FieldExactly(e: Extent, r: Region, f: Field, drop: bool)
    ensures ParseField(e, r, f, drop).Ok? <==> FieldAcceptable(e, r, f, drop)
  {
    if ItemsOf(r, f).Items? { ItemsKept(e, f, ItemsOf(r, f).items, drop); }
  }

  lemma {:induction false} FieldsExactly(e: Extent, r: Region, drop: bool, n: nat)
    requires n <= |FIELDS|
    ensures ParseFields(e, r, drop, n).Ok? <==> forall i :: 0 <= i < n ==> ParseField(e, r, FIELDS[i], drop).Ok?
    decreases n
  {
    if n > 0 { FieldsExactly(e, r, drop, n - 1); }
  }

  /** A capture is compacted if and only if it is well formed and each of its five fields is acceptable. */
  lemma CompactedExactly(r: Region, drop: bool)
    ensures Compacted(r, drop).Ok? <==> ExtentOf(r).Ok? && forall f: Field :: FieldAcceptable(ExtentOf(r).value, r, f, drop)
  {
    if ExtentOf(r).Ok? {
      var e := ExtentOf(r).value;
      FieldsExactly(e, r, drop, |FIELDS|);
      forall i | 0 <= i < |FIELDS| ensures ParseField(e, r, FIELDS[i], drop).Ok? <==> FieldAcceptable(e, r, FIELDS[i], drop) {
        FieldExactly(e, r, FIELDS[i], drop);
      }
      if forall i :: 0 <= i < |FIELDS| ==> ParseField(e, r, FIELDS[i], drop).Ok? {
        forall f: Field ensures FieldAcceptable(e, r, f, drop) {
          EveryField(f);
          FieldExactly(e, r, f, drop);
        }
      }
    }
  }

  /** What is kept of a field is exactly the addresses in it that lie in the capture. */
  lemma EvidenceRead(r: Region, drop: bool, e: Extent, k: Kept, f: Field, a: int)
    requires Reads(r, drop, e, k)
    ensures a in AddressesIn(k, f) <==> f in r.evidence && r.evidence[f].Items? && exists i: nat :: Mentions(e, r.evidence[f].items, i, a)
  {
    EveryField(f);
    ParsedFields(e, r, drop, |FIELDS|);
    assert FIELDS[..|FIELDS|] == FIELDS;
    var n :| 0 <= n < |FIELDS| && FIELDS[n] == f;
    assert ParseField(e, r, FIELDS[n], drop) == Ok(k[f]);
    ItemsKept(e, f, ItemsOf(r, f).items, drop);
  }

  // ---- Where kept evidence goes ---------------------------------------------

  lemma {:induction false} KeptFits(e: Extent, f: Field, items: seq<Item>, drop: bool, a: int)
    requires ParseItems(e, f, items, drop).Ok? && a in ParseItems(e, f, items, drop).value
    ensures Fits(e, a)
    decreases |items|
  {
    if items != [] {
      var init := items[..|items|-1];
      if a in ParseItems(e, f, init, drop).value { KeptFits(e, f, init, drop, a); }
    }
  }

  lemma KeptInField(r: Region, drop: bool, e: Extent, k: Kept, f: Field, a: int)
    requires Reads(r, drop, e, k) && f in k && a in k[f]
    ensures f in FIELDS && Fits(e, a) && PageOf(a) in PagesOf(k)
  {
    ParsedFields(e, r, drop, |FIELDS|);
    assert FIELDS[..|FIELDS|] == FIELDS;
    var i :| 0 <= i < |FIELDS| && FIELDS[i] == f;
    assert ParseField(e, r, FIELDS[i], drop) == Ok(k[f]);
    KeptFits(e, f, ItemsOf(r, f).items, drop, a);
  }

  function BlocksOf(k: Kept): seq<Block> { Blocks(Sorted(PagesOf(k))) }

  lemma BlocksOfPages(k: Kept)
    ensures Separated(BlocksOf(k)) && Cover(BlocksOf(k), PagesOf(k))
  {
    BlocksCover(Sorted(PagesOf(k)));
  }

  /** Inside the cut of a block, counting its tail word. */
  predicate Covers(e: Extent, b: Block, phys: int) { RunLo(e, b) <= phys < RunHi(e, b) }

  lemma PageBounds(a: int)
    ensures PageOf(a) * PAGE <= Phys(a) < (PageOf(a) + 1) * PAGE
  {
  }

  /** An address of a page against the cut of a block, which reaches one word into the page after it. */
  lemma PageAgainstCut(e: Extent, b: Block, page: int, phys: int)
    requires page * PAGE <= phys < (page + 1) * PAGE && e.Lo() <= phys < e.Hi()
    ensures InBlock(b, page) ==> Covers(e, b, phys) && Touches(e, b)
    ensures Covers(e, b, phys) ==> b.first <= page <= b.last + 1
  {
  }

  lemma Apart(blocks: seq<Block>, i: nat, j: nat)
    requires Separated(blocks) && i < |blocks| && j < |blocks|
    ensures i == j || blocks[i].last + 1 < blocks[j].first || blocks[j].last + 1 < blocks[i].first
  {
  }

  /** Evidence lies in the cut of a block exactly when its page is one of the block's. */
  lemma CoveredByPage(e: Extent, k: Kept, i: nat, a: int)
    requires Fits(e, a) && PageOf(a) in PagesOf(k) && i < |BlocksOf(k)|
    ensures Covers(e, BlocksOf(k)[i], Phys(a)) <==> InBlock(BlocksOf(k)[i], PageOf(a))
  {
    var blocks := BlocksOf(k);
    BlocksOfPages(k);
    PageBounds(a);
    PageAgainstCut(e, blocks[i], PageOf(a), Phys(a));
    var j :| Holds(blocks, j, PageOf(a));
    Apart(blocks, i, j);
  }

  predicate HasEvidence(runs: seq<Region>, i: nat, f: Field, a: int) {
    i < |runs| && f in runs[i].evidence && runs[i].evidence[f].Items? && HexText(a) in runs[i].evidence[f].items
  }

  lemma TextMembers(s: set<int>, a: int)
    ensures HexText(a) in Texts(s) <==> a in s
  {
    var list := Sorted(s);
    if a in s {
      assert a in ToSet(list);
      var i :| 0 <= i < |list| && list[i] == a;
      assert Texts(s)[i] == HexText(a);
    }
    if HexText(a) in Texts(s) {
      var i :| 0 <= i < |Texts(s)| && Texts(s)[i] == HexText(a);
      assert list[i] in ToSet(list);
    }
  }

  lemma EvidenceOfRun(r: Region, e: Extent, k: Kept, i: nat, f: Field, a: int)
    requires i < |BlocksOf(k)|
    ensures HasEvidence(RunsOf(r, e, k), i, f, a) <==> f in FIELDS && a in AddressesIn(k, f) && Covers(e, BlocksOf(k)[i], Phys(a))
  {
    TextMembers(Within(e, BlocksOf(k)[i], k, f), a);
  }

  /** Every accepted evidence address is in its field in exactly one run, and no run has any other. */
  lemma NothingLost(r: Region, drop: bool, e: Extent, k: Kept, f: Field, a: int)
    requires Reads(r, drop, e, k)
    ensures a in AddressesIn(k, f) <==> exists i: nat :: HasEvidence(RunsOf(r, e, k), i, f, a)
    ensures forall i: nat, j: nat :: HasEvidence(RunsOf(r, e, k), i, f, a) && HasEvidence(RunsOf(r, e, k), j, f, a) ==> i == j
  {
    var runs, blocks := RunsOf(r, e, k), BlocksOf(k);
    EveryField(f);
    BlocksOfPages(k);
    if a in AddressesIn(k, f) {
      KeptInField(r, drop, e, k, f, a);
      var i :| Holds(blocks, i, PageOf(a));
      CoveredByPage(e, k, i, a);
      EvidenceOfRun(r, e, k, i, f, a);
      assert HasEvidence(runs, i, f, a);
    }
    forall i: nat, j: nat | HasEvidence(runs, i, f, a) && HasEvidence(runs, j, f, a) ensures i == j {
      EvidenceOfRun(r, e, k, i, f, a);
      EvidenceOfRun(r, e, k, j, f, a);
      KeptInField(r, drop, e, k, f, a);
      CoveredByPage(e, k, i, a);
      CoveredByPage(e, k, j, a);
      OneBlock(blocks, i, j, PageOf(a));
    }
    forall i: nat | HasEvidence(runs, i, f, a) ensures a in AddressesIn(k, f) {
      EvidenceOfRun(r, e, k, i, f, a);
    }
  }

  lemma OneBlock(blocks: seq<Block>, i: nat, j: nat, page: int)
    requires Separated(blocks) && i < |blocks| && j < |blocks| && InBlock(blocks[i], page) && InBlock(blocks[j], page)
    ensures i == j
  {
  }

  // ---- Bytes ---------------------------------------------------------------

  lemma EvidenceOnPage(r: Region, drop: bool, e: Extent, k: Kept, page: int) returns (f: Field, a: int)
    requires Reads(r, drop, e, k) && page in PagesOf(k)
    ensures f in FIELDS && f in k && a in k[f] && PageOf(a) == page && Fits(e, a)
  {
    f, a :| f in k && a in k[f] && PageOf(a) == page;
    KeptInField(r, drop, e, k, f, a);
  }

  /** A block's cut is a non-empty part of the image that starts and ends with its pages' evidence inside. */
  lemma BlockTouches(r: Region, drop: bool, e: Extent, k: Kept, i: nat)
    requires Reads(r, drop, e, k) && i < |BlocksOf(k)|
    ensures Touches(e, BlocksOf(k)[i]) && RunLo(e, BlocksOf(k)[i]) < RunHi(e, BlocksOf(k)[i])
  {
    var b := BlocksOf(k)[i];
    BlocksOfPages(k);
    assert Holds(BlocksOf(k), i, b.first);
    var f, a := EvidenceOnPage(r, drop, e, k, b.first);
    PageBounds(a);
    PageAgainstCut(e, b, b.first, Phys(a));
  }

  lemma CutAt(e: Extent, b: Block, j: nat)
    requires Touches(e, b) && j < |Cut(e, b)|
    ensures |Cut(e, b)| == RunHi(e, b) - RunLo(e, b) && 0 <= RunLo(e, b) - e.Lo() + j < |e.image|
    ensures Cut(e, b)[j] == e.image[RunLo(e, b) - e.Lo() + j]
  {
  }

  lemma RunParts(r: Region, e: Extent, k: Kept, i: nat, b: Block)
    requires i < |RunsOf(r, e, k)| && b == BlocksOf(k)[i]
    ensures var run := RunsOf(r, e, k)[i];
      run.load == HexText(e.load + RunLo(e, b) - e.Lo()) && run.size == Some(RunHi(e, b) - RunLo(e, b)) && run.image == Some(Cut(e, b))
  {
  }

  /** The run's `j`-th byte is the source's byte at the same guest address. */
  predicate SameByte(e: Extent, run: Region, j: nat) {
    && run.load.HexText? && run.image.Some? && j < |run.image.value|
    && 0 <= run.load.n + j - e.load < |e.image| && run.image.value[j] == e.image[run.load.n + j - e.load]
  }

  lemma CutSameByte(e: Extent, b: Block, run: Region, j: nat)
    requires Touches(e, b) && run.image == Some(Cut(e, b)) && run.load == HexText(e.load + RunLo(e, b) - e.Lo())
    requires j < RunHi(e, b) - RunLo(e, b)
    ensures SameByte(e, run, j)
  {
    CutAt(e, b, j);
  }

  /** Every byte of a run is the source's byte at the same guest address. */
  lemma SameBytes(r: Region, drop: bool, e: Extent, k: Kept, i: nat, j: nat)
    requires Reads(r, drop, e, k) && i < |RunsOf(r, e, k)|
    requires var size := RunsOf(r, e, k)[i].size; size.Some? && j < size.value
    ensures SameByte(e, RunsOf(r, e, k)[i], j)
  {
    var run, b := RunsOf(r, e, k)[i], BlocksOf(k)[i];
    RunParts(r, e, k, i, b);
    assert Touches(e, b) by { BlockTouches(r, drop, e, k, i); }
    CutSameByte(e, b, run, j);
  }

  /** The run has the byte at this address of RAM. */
  predicate HasByte(run: Region, x: int) {
    run.load.HexText? && run.size.Some? && run.load.n % 0x20_0000 <= x < run.load.n % 0x20_0000 + run.size.value
  }

  predicate HoldsByte(runs: seq<Region>, i: nat, x: int) { i < |runs| && HasByte(runs[i], x) }

  /** Kept evidence lies on the page of 4096 bytes. */
  ghost predicate PageHasEvidence(k: Kept, page: int) { exists f, a :: f in k && a in k[f] && a % 0x20_0000 / 0x1000 == page }

  lemma PageHas(k: Kept, page: int)
    ensures PageHasEvidence(k, page) <==> page in PagesOf(k)
  {
    if PageHasEvidence(k, page) {
      var f, a :| f in k && a in k[f] && a % 0x20_0000 / 0x1000 == page;
      assert PageOf(a) == page;
    }
    if page in PagesOf(k) {
      var f, a :| f in k && a in k[f] && PageOf(a) == page;
      assert a % 0x20_0000 / 0x1000 == page;
    }
  }

  lemma CutPlace(e: Extent, b: Block, run: Region, x: int)
    requires Touches(e, b) && RunLo(e, b) < RunHi(e, b) && e.Hi() <= RAM_SIZE
    requires run.load == HexText(e.load + RunLo(e, b) - e.Lo()) && run.size == Some(RunHi(e, b) - RunLo(e, b))
    ensures HasByte(run, x) <==> Covers(e, b, x)
  {
    RunExtentFits(e, b);
    assert RunExtent(e, b).Lo() == run.load.n % 0x20_0000;
  }

  lemma RunPlace(r: Region, drop: bool, e: Extent, k: Kept, i: nat, x: int)
    requires Reads(r, drop, e, k) && i < |BlocksOf(k)|
    ensures HoldsByte(RunsOf(r, e, k), i, x) <==> Covers(e, BlocksOf(k)[i], x)
  {
    var b := BlocksOf(k)[i];
    assert Touches(e, b) && RunLo(e, b) < RunHi(e, b) by { BlockTouches(r, drop, e, k, i); }
    RunParts(r, e, k, i, b);
    CutPlace(e, b, RunsOf(r, e, k)[i], x);
  }

  /** Inside a cut: on a page of the block, or in the word behind its last page. */
  lemma CutExactly(e: Extent, b: Block, x: int)
    requires e.Lo() <= x < e.Hi() && b.first <= b.last
    ensures Covers(e, b, x) <==> InBlock(b, x / PAGE) || InBlock(b, (x - 4) / PAGE)
  {
    var p, q := x / PAGE, (x - 4) / PAGE;
    assert p * PAGE <= x < (p + 1) * PAGE && q * PAGE <= x - 4 < (q + 1) * PAGE;
    if Covers(e, b, x) {
      assert p >= b.first && q <= b.last;
      assert q == p || q == p - 1;
    }
  }

  /** A byte of the capture is in some run if and only if its page has evidence, or the page four bytes before it has. */
  lemma RunsAreExact(r: Region, drop: bool, e: Extent, k: Kept, x: int)
    requires Reads(r, drop, e, k) && e.load % 0x20_0000 <= x < e.load % 0x20_0000 + |e.image|
    ensures (exists i: nat :: HoldsByte(RunsOf(r, e, k), i, x)) <==> PageHasEvidence(k, x / 0x1000) || PageHasEvidence(k, (x - 4) / 0x1000)
  {
    var runs, blocks := RunsOf(r, e, k), BlocksOf(k);
    BlocksOfPages(k);
    PageHas(k, x / 0x1000);
    PageHas(k, (x - 4) / 0x1000);
    if i: nat :| HoldsByte(runs, i, x) {
      RunPlace(r, drop, e, k, i, x);
      CutExactly(e, blocks[i], x);
      assert Holds(blocks, i, x / PAGE) || Holds(blocks, i, (x - 4) / PAGE);
    }
    if PageHasEvidence(k, x / 0x1000) {
      var i :| Holds(blocks, i, x / PAGE);
      RunPlace(r, drop, e, k, i, x);
      CutExactly(e, blocks[i], x);
      assert HoldsByte(runs, i, x);
    }
    if PageHasEvidence(k, (x - 4) / 0x1000) {
      var i :| Holds(blocks, i, (x - 4) / PAGE);
      RunPlace(r, drop, e, k, i, x);
      CutExactly(e, blocks[i], x);
      assert HoldsByte(runs, i, x);
    }
  }

  /** The texts of ascending addresses. */
  ghost predicate AscendingTexts(v: Evidence) {
    && v.Items? && (forall i :: 0 <= i < |v.items| ==> v.items[i].HexText?)
    && forall i, j :: 0 <= i < j < |v.items| ==> v.items[i].n < v.items[j].n
  }

  /** The run keeps every other key of the capture, gives the size of its bytes, and lists every evidence field in order. */
  ghost predicate IsWhole(r: Region, run: Region) {
    && run.rest == r.rest && run.image.Some? && run.size == Some(|run.image.value|) && |run.image.value| > 0
    && forall f: Field :: f in run.evidence && AscendingTexts(run.evidence[f])
  }

  lemma RunKeeps(r: Region, drop: bool, e: Extent, k: Kept, i: nat)
    requires Reads(r, drop, e, k) && i < |RunsOf(r, e, k)|
    ensures IsWhole(r, RunsOf(r, e, k)[i])
  {
    var b := BlocksOf(k)[i];
    assert IsWhole(r, RunOf(r, e, k, b)) by {
      BlockTouches(r, drop, e, k, i);
      RunIsWhole(r, e, k, b);
    }
    assert RunsOf(r, e, k)[i] == RunOf(r, e, k, b);
  }

  lemma RunIsWhole(r: Region, e: Extent, k: Kept, b: Block)
    requires Touches(e, b) && RunLo(e, b) < RunHi(e, b)
    ensures IsWhole(r, RunOf(r, e, k, b))
  {
    CutSize(e, b);
    RunLists(r, e, k, b);
  }

  lemma RunLists(r: Region, e: Extent, k: Kept, b: Block)
    ensures forall f: Field :: f in RunOf(r, e, k, b).evidence && AscendingTexts(RunOf(r, e, k, b).evidence[f])
  {
    forall f: Field ensures f in RunOf(r, e, k, b).evidence && AscendingTexts(RunOf(r, e, k, b).evidence[f]) {
      EveryField(f);
      TextsAscend(Within(e, b, k, f));
    }
  }

  lemma TextsAscend(s: set<int>)
    ensures AscendingTexts(Items(Texts(s)))
  {
  }

  lemma CoversPage(e: Extent, b: Block, page: int, x: int)
    requires InBlock(b, page) && e.Lo() <= x < e.Hi() && page * PAGE <= x < (page + 1) * PAGE + 4
    ensures Covers(e, b, x)
  {
  }

  /** All of a retained page that the image has, and the word after it, is in one run. */
  lemma PageAndDelaySlotKept(k: Kept, e: Extent, page: int) returns (i: nat)
    requires page in PagesOf(k)
    ensures i < |BlocksOf(k)| && InBlock(BlocksOf(k)[i], page)
    ensures forall x :: e.Lo() <= x < e.Hi() && page * PAGE <= x < (page + 1) * PAGE + 4 ==> Covers(e, BlocksOf(k)[i], x)
  {
    BlocksOfPages(k);
    i :| Holds(BlocksOf(k), i, page);
    var b := BlocksOf(k)[i];
    forall x | e.Lo() <= x < e.Hi() && page * PAGE <= x < (page + 1) * PAGE + 4 ensures Covers(e, b, x) {
      CoversPage(e, b, page, x);
    }
  }

  // ---- Compacting a run again ------------------------------------------------

  /** The extent a run's own load address and bytes describe. */
  function RunExtent(e: Extent, b: Block): Extent { Extent(e.load + RunLo(e, b) - e.Lo(), Cut(e, b)) }

  lemma RunExtentFits(e: Extent, b: Block)
    requires Touches(e, b) && e.Hi() <= RAM_SIZE && RunLo(e, b) < RunHi(e, b)
    ensures RunExtent(e, b).Lo() == RunLo(e, b) && RunExtent(e, b).Hi() == RunHi(e, b)
    ensures RunLo(RunExtent(e, b), b) == RunLo(e, b) && RunHi(RunExtent(e, b), b) == RunHi(e, b)
    ensures Cut(RunExtent(e, b), b) == Cut(e, b)
  {
    var q := e.load / RAM_SIZE;
    assert e.load == RAM_SIZE * q + e.Lo();
    WholeRam(q, RunLo(e, b));
  }

  lemma WholeRam(q: int, x: int)
    requires 0 <= x < RAM_SIZE
    ensures Phys(RAM_SIZE * q + x) == x
  {
  }

  /** A run's addresses read back, unless one is negative. */
  lemma {:induction false} TextsParse(e: Extent, f: Field, list: seq<int>, drop: bool)
    requires forall i :: 0 <= i < |list| ==> list[i] >= 0 && Fits(e, list[i])
    ensures ParseItems(e, f, seq(|list|, i requires 0 <= i < |list| => HexText(list[i])), drop) == Ok(list)
    decreases |list|
  {
    if list != [] {
      var n := |list| - 1;
      var init := list[..n];
      var items := seq(|list|, i requires 0 <= i < |list| => HexText(list[i]));
      TextsParse(e, f, init, drop);
      assert items[..n] == seq(|init|, i requires 0 <= i < |init| => HexText(init[i]));
      assert list == init + [list[n]];
    }
  }

  /** The kept evidence of a run: per field, what lies in its cut. */
  function RunKept(e: Extent, b: Block, k: Kept): Kept { map f | f in FIELDS :: Sorted(Within(e, b, k, f)) }

  ghost predicate ReadsBack(e: Extent, b: Block, k: Kept) {
    e.load >= 0 && forall f, a :: f in FIELDS && a in Within(e, b, k, f) ==> a >= 0
  }

  function Upwards(first: int, n: nat): seq<int> { seq(n, i => first + i) }

  lemma {:induction false} UpwardsIsOneBlock(first: int, n: nat)
    requires n > 0
    ensures Blocks(Upwards(first, n)) == [Block(first, first + n - 1)]
    decreases n
  {
    var list := Upwards(first, n);
    assert list[..n-1] == Upwards(first, n - 1);
    if n > 1 {
      UpwardsIsOneBlock(first, n - 1);
    }
  }

  lemma UpwardsMembers(b: Block, n: nat, p: int)
    requires n == b.last - b.first + 1
    ensures p in Upwards(b.first, n) <==> InBlock(b, p)
  {
    var list := Upwards(b.first, n);
    if InBlock(b, p) {
      assert list[p - b.first] == p;
    }
  }

  /** The pages of one block group into that block again. */
  lemma BlockAgain(b: Block, list: seq<int>)
    requires b.first <= b.last && Increasing(list) && forall p :: p in ToSet(list) <==> InBlock(b, p)
    ensures Blocks(list) == [b]
  {
    var n := b.last - b.first + 1;
    var up := Upwards(b.first, n);
    forall p ensures p in ToSet(up) <==> p in ToSet(list) {
      UpwardsMembers(b, n, p);
    }
    IncreasingUnique(list, up);
    UpwardsIsOneBlock(b.first, n);
  }

  lemma WithinBlock(r: Region, drop: bool, e: Extent, k: Kept, i: nat, f: Field, a: int)
    requires Reads(r, drop, e, k) && i < |BlocksOf(k)| && f in FIELDS && a in Within(e, BlocksOf(k)[i], k, f)
    ensures InBlock(BlocksOf(k)[i], PageOf(a)) && Fits(RunExtent(e, BlocksOf(k)[i]), a)
  {
    var b := BlocksOf(k)[i];
    KeptInField(r, drop, e, k, f, a);
    CoveredByPage(e, k, i, a);
    BlockTouches(r, drop, e, k, i);
    RunExtentFits(e, b);
  }

  lemma RunPages(r: Region, drop: bool, e: Extent, k: Kept, i: nat)
    requires Reads(r, drop, e, k) && i < |BlocksOf(k)|
    ensures forall p :: p in PagesOf(RunKept(e, BlocksOf(k)[i], k)) <==> InBlock(BlocksOf(k)[i], p)
  {
    var b := BlocksOf(k)[i];
    var kept := RunKept(e, b, k);
    BlocksOfPages(k);
    forall p | p in PagesOf(kept) ensures InBlock(b, p) {
      var f, a :| f in kept && a in kept[f] && PageOf(a) == p;
      assert a in ToSet(Sorted(Within(e, b, k, f)));
      WithinBlock(r, drop, e, k, i, f, a);
    }
    forall p | InBlock(b, p) ensures p in PagesOf(kept) {
      assert Holds(BlocksOf(k), i, p);
      var f, a := EvidenceOnPage(r, drop, e, k, p);
      CoveredByPage(e, k, i, a);
      assert a in ToSet(Sorted(Within(e, b, k, f)));
      assert a in kept[f];
    }
  }

  /** One field of a run parses to the run's own evidence. */
  lemma RunFieldParses(r: Region, drop: bool, e: Extent, k: Kept, i: nat, again: bool, f: Field)
    requires Reads(r, drop, e, k) && i < |BlocksOf(k)| && ReadsBack(e, BlocksOf(k)[i], k) && f in FIELDS
    ensures var b := BlocksOf(k)[i];
      ParseField(RunExtent(e, b), RunOf(r, e, k, b), f, again) == Ok(Sorted(Within(e, b, k, f)))
  {
    var b := BlocksOf(k)[i];
    var list := Sorted(Within(e, b, k, f));
    forall j | 0 <= j < |list| ensures list[j] >= 0 && Fits(RunExtent(e, b), list[j]) {
      assert list[j] in ToSet(list);
      WithinBlock(r, drop, e, k, i, f, list[j]);
    }
    TextsParse(RunExtent(e, b), f, list, again);
  }

  ghost predicate ParsesTo(x: Extent, run: Region, again: bool, want: Kept) {
    (forall f :: f in want <==> f in FIELDS) && forall f :: f in want ==> ParseField(x, run, f, again) == Ok(want[f])
  }

  lemma AllFieldsParse(x: Extent, run: Region, again: bool, want: Kept)
    requires ParsesTo(x, run, again, want)
    ensures ParseFields(x, run, again, |FIELDS|) == Ok(want)
  {
    FieldsExactly(x, run, again, |FIELDS|);
    assert forall i :: 0 <= i < |FIELDS| ==> FIELDS[i] in want;
    ParsedFields(x, run, again, |FIELDS|);
    assert FIELDS[..|FIELDS|] == FIELDS;
    var got := ParseFields(x, run, again, |FIELDS|).value;
    forall f | f in want ensures f in got && got[f] == want[f] {
      var i :| 0 <= i < |FIELDS| && FIELDS[i] == f;
    }
    assert got == want;
  }

  lemma LoadStays(e: Extent, b: Block)
    requires e.load >= 0 && Touches(e, b)
    ensures e.load + RunLo(e, b) - e.Lo() >= 0
  {
  }

  lemma CutSize(e: Extent, b: Block)
    requires Touches(e, b)
    ensures |Cut(e, b)| == RunHi(e, b) - RunLo(e, b)
  {
  }

  lemma ExtentRead(run: Region, x: Extent)
    requires run.load == HexText(x.load) && x.load >= 0 && run.size == Some(|x.image|) && run.image == Some(x.image)
    requires |x.image| > 0 && x.Hi() <= RAM_SIZE
    ensures ExtentOf(run) == Ok(x)
  {
  }

  lemma RunExtentFitsRam(e: Extent, b: Block)
    requires Touches(e, b) && e.Hi() <= RAM_SIZE && RunLo(e, b) < RunHi(e, b) && e.load >= 0
    ensures RunExtent(e, b).load >= 0 && |RunExtent(e, b).image| > 0 && RunExtent(e, b).Hi() <= RAM_SIZE
    ensures |RunExtent(e, b).image| == RunHi(e, b) - RunLo(e, b)
  {
    RunExtentFits(e, b);
    LoadStays(e, b);
    CutSize(e, b);
  }

  lemma RunExtentRead(r: Region, e: Extent, k: Kept, b: Block, run: Region, x: Extent)
    requires Touches(e, b) && e.Hi() <= RAM_SIZE && RunLo(e, b) < RunHi(e, b) && e.load >= 0
    requires run == RunOf(r, e, k, b) && x == RunExtent(e, b)
    ensures ExtentOf(run) == Ok(x)
  {
    RunExtentFitsRam(e, b);
    assert run.load == HexText(x.load) && run.size == Some(|x.image|) && run.image == Some(x.image);
    ExtentRead(run, x);
  }

  lemma RunFieldsRead(r: Region, drop: bool, e: Extent, k: Kept, i: nat, again: bool, b: Block)
    requires Reads(r, drop, e, k) && i < |BlocksOf(k)| && b == BlocksOf(k)[i] && ReadsBack(e, b, k)
    ensures ParsesTo(RunExtent(e, b), RunOf(r, e, k, b), again, RunKept(e, b, k))
  {
    forall f | f in RunKept(e, b, k)
      ensures ParseField(RunExtent(e, b), RunOf(r, e, k, b), f, again) == Ok(RunKept(e, b, k)[f])
    {
      RunFieldParses(r, drop, e, k, i, again, f);
    }
  }

  lemma RunReads(r: Region, drop: bool, e: Extent, k: Kept, i: nat, again: bool, b: Block)
    requires Reads(r, drop, e, k) && i < |BlocksOf(k)| && b == BlocksOf(k)[i] && ReadsBack(e, b, k)
    ensures Reads(RunOf(r, e, k, b), again, RunExtent(e, b), RunKept(e, b, k))
  {
    BlockTouches(r, drop, e, k, i);
    RunExtentRead(r, e, k, b, RunOf(r, e, k, b), RunExtent(e, b));
    RunFieldsRead(r, drop, e, k, i, again, b);
    AllFieldsParse(RunExtent(e, b), RunOf(r, e, k, b), again, RunKept(e, b, k));
  }

  lemma SameWithin(e: Extent, b: Block, k: Kept, f: Field)
    requires f in FIELDS && Touches(e, b) && e.Hi() <= RAM_SIZE && RunLo(e, b) < RunHi(e, b)
    ensures Within(RunExtent(e, b), b, RunKept(e, b, k), f) == Within(e, b, k, f)
  {
    RunExtentFits(e, b);
    var kept := Within(e, b, k, f);
    forall a ensures a in AddressesIn(RunKept(e, b, k), f) <==> a in kept {
      assert a in ToSet(Sorted(kept)) <==> a in kept;
    }
  }

  lemma RunIsItsOwnRun(r: Region, e: Extent, k: Kept, b: Block)
    requires Touches(e, b) && e.Hi() <= RAM_SIZE && RunLo(e, b) < RunHi(e, b)
    ensures RunOf(RunOf(r, e, k, b), RunExtent(e, b), RunKept(e, b, k), b) == RunOf(r, e, k, b)
  {
    RunExtentFits(e, b);
    var run := RunOf(r, e, k, b);
    var again := RunOf(run, RunExtent(e, b), RunKept(e, b, k), b);
    forall f | f in FIELDS ensures again.evidence[f] == run.evidence[f] {
      SameWithin(e, b, k, f);
    }
    assert again.evidence == run.evidence;
  }

  lemma CompactedReads(r: Region, drop: bool, e: Extent, k: Kept)
    requires Reads(r, drop, e, k)
    ensures Compacted(r, drop) == Ok(RunsOf(r, e, k))
  {
  }

  lemma OneRun(r: Region, e: Extent, k: Kept, b: Block)
    requires BlocksOf(k) == [b]
    ensures RunsOf(r, e, k) == [RunOf(r, e, k, b)]
  {
  }

  lemma RunGroups(r: Region, drop: bool, e: Extent, k: Kept, i: nat, b: Block)
    requires Reads(r, drop, e, k) && i < |BlocksOf(k)| && b == BlocksOf(k)[i]
    ensures BlocksOf(RunKept(e, b, k)) == [b]
  {
    RunPages(r, drop, e, k, i);
    BlocksOfPages(k);
    BlockAgain(b, Sorted(PagesOf(RunKept(e, b, k))));
  }

  lemma CompactsToOneRun(run: Region, again: bool, x: Extent, kept: Kept, b: Block)
    requires Reads(run, again, x, kept) && BlocksOf(kept) == [b] && RunOf(run, x, kept, b) == run
    ensures Compacted(run, again) == Ok([run])
  {
    CompactedReads(run, again, x, kept);
    OneRun(run, x, kept, b);
  }

  lemma RunAgain(r: Region, drop: bool, e: Extent, k: Kept, i: nat, b: Block)
    requires Reads(r, drop, e, k) && i < |BlocksOf(k)| && b == BlocksOf(k)[i]
    ensures RunOf(RunOf(r, e, k, b), RunExtent(e, b), RunKept(e, b, k), b) == RunOf(r, e, k, b)
  {
    BlockTouches(r, drop, e, k, i);
    RunIsItsOwnRun(r, e, k, b);
  }

  /** Compacting an output run returns just that run. */
  lemma RunIsFixed(r: Region, drop: bool, e: Extent, k: Kept, i: nat, again: bool, b: Block, run: Region)
    requires Reads(r, drop, e, k) && i < |BlocksOf(k)| && b == BlocksOf(k)[i] && ReadsBack(e, b, k)
    requires run == RunOf(r, e, k, b)
    ensures Compacted(run, again) == Ok([run])
  {
    var x, kept := RunExtent(e, b), RunKept(e, b, k);
    assert Reads(run, again, x, kept) by { RunReads(r, drop, e, k, i, again, b); }
    assert BlocksOf(kept) == [b] by { RunGroups(r, drop, e, k, i, b); }
    assert RunOf(run, x, kept, b) == run by { RunAgain(r, drop, e, k, i, b); }
    CompactsToOneRun(run, again, x, kept, b);
  }

  lemma NegativeText(e: Extent, f: Field, items: seq<Item>, drop: bool, j: nat)
    requires j < |items| && Address(items[j]).None?
    ensures ParseItems(e, f, items, drop).Err?
  {
    ItemsKept(e, f, items, drop);
    assert !Acceptable(e, items[j], drop);
  }

  lemma NegativeFieldFails(x: Extent, s: set<int>, again: bool, f: Field, a: int)
    requires a in s && a < 0
    ensures ParseItems(x, f, Texts(s), again).Err?
  {
    TextMembers(s, a);
    var items := Texts(s);
    var j: nat :| j < |items| && items[j] == HexText(a);
    NegativeText(x, f, items, again, j);
  }

  lemma FieldErrorFails(x: Extent, run: Region, again: bool, f: Field)
    requires f in FIELDS && ParseField(x, run, f, again).Err?
    ensures ParseFields(x, run, again, |FIELDS|).Err?
  {
    var n :| 0 <= n < |FIELDS| && FIELDS[n] == f;
    if ParseFields(x, run, again, n).Err? {
      EarlierError(x, run, again, n, |FIELDS|);
    } else {
      EarlierError(x, run, again, n + 1, |FIELDS|);
    }
  }

  lemma NegativeAddressFails(r: Region, e: Extent, k: Kept, b: Block, x: Extent, again: bool, f: Field, a: int)
    requires f in FIELDS && a in Within(e, b, k, f) && a < 0
    ensures ParseFields(x, RunOf(r, e, k, b), again, |FIELDS|).Err?
  {
    NegativeFieldFails(x, Within(e, b, k, f), again, f, a);
    FieldErrorFails(x, RunOf(r, e, k, b), again, f);
  }

  /** Exactly when its addresses read back does a run compact to itself. */
  lemma FixedExactly(r: Region, drop: bool, e: Extent, k: Kept, i: nat, again: bool)
    requires Reads(r, drop, e, k) && i < |RunsOf(r, e, k)|
    ensures Compacted(RunsOf(r, e, k)[i], again) == Ok([RunsOf(r, e, k)[i]]) <==> ReadsBack(e, BlocksOf(k)[i], k)
  {
    var b := BlocksOf(k)[i];
    var run := RunOf(r, e, k, b);
    if ReadsBack(e, b, k) {
      RunIsFixed(r, drop, e, k, i, again, b, run);
    } else if e.load < 0 {
      NegativeLoad(r, drop, e, k, i);
    } else {
      var f, a :| f in FIELDS && a in Within(e, b, k, f) && a < 0;
      if ExtentOf(run).Ok? {
        NegativeAddressFails(r, e, k, b, ExtentOf(run).value, again, f, a);
      }
    }
  }

  lemma NegativeLoad(r: Region, drop: bool, e: Extent, k: Kept, i: nat)
    requires Reads(r, drop, e, k) && i < |RunsOf(r, e, k)| && e.load < 0
    ensures ExtentOf(RunsOf(r, e, k)[i]).Err?
  {
    var b := BlocksOf(k)[i];
    BlockTouches(r, drop, e, k, i);
    assert RunLo(e, b) < RAM_SIZE;
    assert e.load - e.Lo() <= -RAM_SIZE;
  }
}
