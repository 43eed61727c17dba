/** _compact_region of the coverage vault: one broad capture cut into page runs around its evidence. */
module CompactRegion {
  import opened Prelude
  import opened BitWords
  import opened Sorting

  const RAM_SIZE := 0x20_0000
  const PAGE := 0x1000

  datatype Field = ExecutedPcs | DispatchEntryPcs | StaticDispatchEntryPcs | FunctionEntryPcs | SeedPcs

  /** EVIDENCE_FIELDS, in order. */
  const FIELDS: seq<Field> := [ExecutedPcs, DispatchEntryPcs, StaticDispatchEntryPcs, FunctionEntryPcs, SeedPcs]

  /** A JSON value where an address is expected: its number, the text `0x%08X` of a number, or neither. */
  datatype Item = Number(n: int) | HexText(n: int) | Junk

  /** `_address`; the formatted text of a negative number does not read back. */
  function Address(i: Item): Option<int> {
    match i
    case Number(n) => Some(n)
    case HexText(n) => if n >= 0 then Some(n) else None
    case Junk => None
  }

  datatype Evidence = Items(items: seq<Item>) | NotAList

  /** A capture region; `size` and `image` are `None` when they are not an integer or not base64, `rest` is every other key. */
  datatype Region = Region(load: Item, size: Option<int>, image: Option<seq<Byte>>, evidence: map<Field, Evidence>,
                           rest: map<string, string>)

  datatype Error =
    | BadLoad | BadSize | BadImage | SizeMismatch | BeyondRam
    | BadList(field: Field) | BadAddress(field: Field) | OutsideCapture(field: Field, address: int)

  datatype Result<+T> = Ok(value: T) | Err(error: Error)

  function Phys(a: int): int { a % RAM_SIZE }

  function PageOf(a: int): int { Phys(a) / PAGE }

  /** Where a capture lies: its address and bytes, its first physical address and the one behind its last. */
  datatype Extent = Extent(load: int, image: seq<Byte>) {
    function Lo(): int { Phys(load) }
    function Hi(): int { Phys(load) + |image| }
  }

  function ExtentOf(r: Region): Result<Extent> {
    if Address(r.load).None? then Err(BadLoad)
    else if r.size.None? || r.size.value <= 0 then Err(BadSize)
    else if r.image.None? then Err(BadImage)
    else if |r.image.value| != r.size.value then Err(SizeMismatch)
    else
      var e := Extent(Address(r.load).value, r.image.value);
      if e.Hi() > RAM_SIZE then Err(BeyondRam) else Ok(e)
  }

  /** An evidence address inside the capture, word aligned. */
  predicate Fits(e: Extent, a: int) { e.Lo() <= Phys(a) < e.Hi() && Phys(a) % 4 == 0 }

  function ItemsOf(r: Region, f: Field): Evidence { if f in r.evidence then r.evidence[f] else Items([]) }

  /** The addresses of one field that are kept, in order, or the first error. */
  function ParseItems(e: Extent, f: Field, items: seq<Item>, drop: bool): Result<seq<int>> {
    if items == [] then Ok([])
    else
      var init, last := ParseItems(e, f, items[..|items|-1], drop), Address(items[|items|-1]);
      if init.Err? then init
      else if last.None? then Err(BadAddress(f))
      else if Fits(e, last.value) then Ok(init.value + [last.value])
      else if drop then init
      else Err(OutsideCapture(f, last.value))
  }

  function ParseField(e: Extent, r: Region, f: Field, drop: bool): Result<seq<int>> {
    match ItemsOf(r, f)
    case NotAList => Err(BadList(f))
    case Items(items) => ParseItems(e, f, items, drop)
  }

  function ItemCount(r: Region, f: Field): nat {
    if ItemsOf(r, f).Items? then |ItemsOf(r, f).items| else 0
  }

  type Kept = map<Field, seq<int>>

  /** The kept addresses of the first `n` fields. */
  function ParseFields(e: Extent, r: Region, drop: bool, n: nat): Result<Kept>
    requires n <= |FIELDS|
  {
    if n == 0 then Ok(map[])
    else
      var before, f := ParseFields(e, r, drop, n - 1), FIELDS[n-1];
      if before.Err? then before
      else
        var here := ParseField(e, r, f, drop);
        if here.Err? then Err(here.error) else Ok(before.value[f := here.value])
  }

  function AddressesIn(k: Kept, f: Field): seq<int> { if f in k then k[f] else [] }

  /** Every page with evidence. */
  function PagesOf(k: Kept): set<int> {
    set f, a | f in k && a in k[f] :: PageOf(a)
  }

  // ---- Runs of pages -------------------------------------------------------

  datatype Block = Block(first: int, last: int)

  /** The next page extends the last block or opens one. */
  function AddPage(blocks: seq<Block>, page: int): seq<Block> {
    if blocks != [] && page == blocks[|blocks|-1].last + 1
    then blocks[..|blocks|-1] + [Block(blocks[|blocks|-1].first, page)]
    else blocks + [Block(page, page)]
  }

  /** Maximal runs of consecutive pages. */
  function Blocks(pages: seq<int>): seq<Block> {
    if pages == [] then [] else AddPage(Blocks(pages[..|pages|-1]), pages[|pages|-1])
  }

  function RunLo(e: Extent, b: Block): int { Max(e.Lo(), b.first * PAGE) }

  /** The word after the last page stays in, for the delay slot of a branch in its last word. */
  function RunHi(e: Extent, b: Block): int { Min(e.Hi(), (b.last + 1) * PAGE + 4) }

  function Within(e: Extent, b: Block, k: Kept, f: Field): set<int> {
    set a | a in AddressesIn(k, f) && RunLo(e, b) <= Phys(a) < RunHi(e, b)
  }

  /** The texts of the addresses, sorted. */
  function Texts(s: set<int>): seq<Item> {
    var list := Sorted(s);
    seq(|list|, i requires 0 <= i < |list| => HexText(list[i]))
  }

  /** A block that touches the image. */
  predicate Touches(e: Extent, b: Block) { e.Lo() <= RunLo(e, b) <= RunHi(e, b) <= e.Hi() }

  function Cut(e: Extent, b: Block): seq<Byte> {
    if Touches(e, b) then e.image[RunLo(e, b) - e.Lo()..RunHi(e, b) - e.Lo()] else []
  }

  function RunOf(r: Region, e: Extent, k: Kept, b: Block): Region {
    Region(HexText(e.load + RunLo(e, b) - e.Lo()), Some(RunHi(e, b) - RunLo(e, b)), Some(Cut(e, b)),
           map f | f in FIELDS :: Items(Texts(Within(e, b, k, f))), r.rest)
  }

  function RunsOf(r: Region, e: Extent, k: Kept): seq<Region> {
    var blocks := Blocks(Sorted(PagesOf(k)));
    seq(|blocks|, i requires 0 <= i < |blocks| => RunOf(r, e, k, blocks[i]))
  }

  /** What compaction returns: the runs, or the first error. */
  function Compacted(r: Region, drop: bool): Result<seq<Region>> {
    var e := ExtentOf(r);
    if e.Err? then Err(e.error)
    else
      var k := ParseFields(e.value, r, drop, |FIELDS|);
      if k.Err? then Err(k.error) else Ok(RunsOf(r, e.value, k.value))
  }

  // ---- The method ----------------------------------------------------------

  /** The loop over one field's values. */
  method ReadField(e: Extent, f: Field, items: seq<Item>, drop: bool)
    returns (r: Result<seq<int>>, pages: set<int>, invalid: nat)
    ensures r == ParseItems(e, f, items, drop)
    ensures r.Ok? ==> pages == (set a | a in r.value :: PageOf(a)) && |r.value| + invalid == |items| && (!drop ==> invalid == 0)
  {
    var entries := [];
    pages, invalid := {}, 0;
    for n := 0 to |items|
      invariant ParseItems(e, f, items[..n], drop) == Ok(entries)
      invariant pages == set a | a in entries :: PageOf(a)
      invariant |entries| + invalid == n && (!drop ==> invalid == 0)
    {
      assert items[..n+1][..n] == items[..n];
      var address := Address(items[n]);
      if address.None? {
        FirstError(e, f, items, drop, n + 1);
        return Err(BadAddress(f)), pages, invalid;
      }
      if !Fits(e, address.value) {
        if !drop {
          FirstError(e, f, items, drop, n + 1);
          return Err(OutsideCapture(f, address.value)), pages, invalid;
        }
        invalid := invalid + 1;
      } else {
        entries := entries + [address.value];
        pages := pages + {PageOf(address.value)};
      }
    }
    assert items[..|items|] == items;
    r := Ok(entries);
  }

  lemma {:induction false} FirstError(e: Extent, f: Field, items: seq<Item>, drop: bool, n: nat)
    requires n <= |items| && ParseItems(e, f, items[..n], drop).Err?
    ensures ParseItems(e, f, items, drop) == ParseItems(e, f, items[..n], drop)
    decreases |items|
  {
    if n == |items| {
      assert items[..n] == items;
    } else {
      var init := items[..|items|-1];
      assert init[..n] == items[..n];
      FirstError(e, f, init, drop, n);
    }
  }

  lemma NextPage(ordered: seq<int>, n: nat)
    requires n < |ordered|
    ensures Blocks(ordered[..n+1]) == AddPage(Blocks(ordered[..n]), ordered[n])
  {
    assert ordered[..n+1][..n] == ordered[..n];
  }

  /** The loop that closes a run whenever the next page is not the following one. */
  method GroupPages(ordered: seq<int>) returns (blocks: seq<Block>)
    requires ordered != []
    ensures blocks == Blocks(ordered)
  {
    blocks := [];
    var first, previous := ordered[0], ordered[0];
    NextPage(ordered, 0);
    for n := 1 to |ordered|
      invariant blocks + [Block(first, previous)] == Blocks(ordered[..n])
    {
      NextPage(ordered, n);
      if ordered[n] == previous + 1 {
        previous := ordered[n];
      } else {
        blocks := blocks + [Block(first, previous)];
        first, previous := ordered[n], ordered[n];
      }
    }
    assert ordered[..|ordered|] == ordered;
    blocks := blocks + [Block(first, previous)];
  }

  ghost predicate FieldsRead(e: Extent, r: Region, drop: bool, n: nat, kept: Kept, pages: set<int>)
    requires n <= |FIELDS|
  {
    ParseFields(e, r, drop, n) == Ok(kept) && pages == PagesOf(kept)
  }

  lemma {:induction false} EarlierError(e: Extent, r: Region, drop: bool, n: nat, m: nat)
    requires n <= m <= |FIELDS| && ParseFields(e, r, drop, n).Err?
    ensures ParseFields(e, r, drop, m) == ParseFields(e, r, drop, n)
    decreases m
  {
    if n < m {
      EarlierError(e, r, drop, n, m - 1);
    }
  }

  lemma PagesGrow(kept: Kept, f: Field, entries: seq<int>)
    requires f !in kept
    ensures PagesOf(kept[f := entries]) == PagesOf(kept) + set a | a in entries :: PageOf(a)
  {
    var more := kept[f := entries];
    forall g, a | g in kept && a in kept[g] ensures PageOf(a) in PagesOf(more) {
      assert more[g] == kept[g];
    }
    forall a | a in entries ensures PageOf(a) in PagesOf(more) {
      assert a in more[f];
    }
  }

  lemma {:induction false} ParsedFields(e: Extent, r: Region, drop: bool, n: nat)
    requires n <= |FIELDS| && ParseFields(e, r, drop, n).Ok?
    ensures forall f :: f in ParseFields(e, r, drop, n).value <==> f in FIELDS[..n]
    ensures forall i :: 0 <= i < n ==>
      ParseField(e, r, FIELDS[i], drop) == Ok(ParseFields(e, r, drop, n).value[FIELDS[i]])
    decreases n
  {
    if n > 0 {
      ParsedFields(e, r, drop, n - 1);
      assert FIELDS[..n] == FIELDS[..n-1] + [FIELDS[n-1]];
    }
  }

  /** How many values the first `n` fields hold. */
  function Total(r: Region, n: nat): nat
    requires n <= |FIELDS|
  {
    if n == 0 then 0 else Total(r, n - 1) + ItemCount(r, FIELDS[n-1])
  }

  /** The loop over the fields. */
  method ReadFields(e: Extent, r: Region, drop: bool) returns (kept: Result<Kept>, pages: set<int>, entries: nat, invalid: nat)
    ensures kept == ParseFields(e, r, drop, |FIELDS|)
    ensures kept.Ok? ==> pages == PagesOf(kept.value)
    ensures kept.Ok? ==> entries + invalid == Total(r, |FIELDS|) && (!drop ==> invalid == 0)
  {
    var parsed: Kept := map[];
    pages, entries, invalid := {}, 0, 0;
    for n := 0 to |FIELDS|
      invariant FieldsRead(e, r, drop, n, parsed, pages)
      invariant entries + invalid == Total(r, n) && (!drop ==> invalid == 0)
    {
      var f := FIELDS[n];
      ParsedFields(e, r, drop, n);
      var items := ItemsOf(r, f);
      if items.NotAList? {
        EarlierError(e, r, drop, n + 1, |FIELDS|);
        return Err(BadList(f)), pages, entries, invalid;
      }
      var here, more, dropped := ReadField(e, f, items.items, drop);
      if here.Err? {
        EarlierError(e, r, drop, n + 1, |FIELDS|);
        return Err(here.error), pages, entries, invalid;
      }
      PagesGrow(parsed, f, here.value);
      parsed, pages := parsed[f := here.value], pages + more;
      entries, invalid := entries + |here.value|, invalid + dropped;
    }
    kept := Ok(parsed);
  }

  /** _compact_region: the runs, the kept evidence entries and the dropped ones. */
  method CompactCapture(r: Region, drop: bool) returns (runs: Result<seq<Region>>, entries: nat, invalid: nat)
    ensures runs == Compacted(r, drop)
    ensures runs.Ok? ==> entries + invalid == Total(r, |FIELDS|) && (!drop ==> invalid == 0)
  {
    var e := ExtentOf(r);
    if e.Err? { return Err(e.error), 0, 0; }
    var kept, pages;
    kept, pages, entries, invalid := ReadFields(e.value, r, drop);
    if kept.Err? { return Err(kept.error), entries, invalid; }
    if pages == {} {
      assert Sorted(pages) == [] && RunsOf(r, e.value, kept.value) == [];
      return Ok([]), entries, invalid;
    }
    var blocks := GroupPages(Sorted(pages));
    runs := Ok(seq(|blocks|, i requires 0 <= i < |blocks| => RunOf(r, e.value, kept.value, blocks[i])));
  }

  // ---- Blocks of sorted pages ----------------------------------------------

  predicate InBlock(b: Block, page: int) { b.first <= page <= b.last }

  /** Blocks in order, each non-empty, with a gap of at least one page between any two. */
  ghost predicate Separated(blocks: seq<Block>) {
    && (forall i :: 0 <= i < |blocks| ==> blocks[i].first <= blocks[i].last)
    && forall i, j :: 0 <= i < j < |blocks| ==> blocks[i].last + 1 < blocks[j].first
  }

  /** The page lies in the `i`-th block. */
  predicate Holds(blocks: seq<Block>, i: int, page: int) { 0 <= i < |blocks| && InBlock(blocks[i], page) }

  ghost predicate Cover(blocks: seq<Block>, pages: set<int>) {
    && (forall i, p :: Holds(blocks, i, p) ==> p in pages)
    && forall p :: p in pages ==> exists i :: Holds(blocks, i, p)
  }

  /** The blocks cover exactly the pages, and are maximal. */
  lemma {:induction false} BlocksCover(pages: seq<int>)
    requires Increasing(pages)
    ensures Separated(Blocks(pages)) && Cover(Blocks(pages), ToSet(pages))
    ensures pages == [] <==> Blocks(pages) == []
    ensures pages != [] ==> Blocks(pages)[|Blocks(pages)|-1].last == pages[|pages|-1]
    decreases |pages|
  {
    if pages != [] {
      var n := |pages| - 1;
      var init, page := pages[..n], pages[n];
      BlocksCover(init);
      AddPageSeparates(Blocks(init), page);
      AddPageCovers(Blocks(init), ToSet(init), page);
      NextItem(pages, n);
      assert pages[..n+1] == pages;
    }
  }

  lemma AddPageSeparates(blocks: seq<Block>, page: int)
    requires Separated(blocks) && (blocks != [] ==> blocks[|blocks|-1].last < page)
    ensures Separated(AddPage(blocks, page))
    ensures AddPage(blocks, page) != [] && AddPage(blocks, page)[|AddPage(blocks, page)|-1].last == page
  {
  }

  lemma AddPageCovers(blocks: seq<Block>, pages: set<int>, page: int)
    requires Separated(blocks) && Cover(blocks, pages) && (blocks != [] ==> blocks[|blocks|-1].last < page)
    ensures Cover(AddPage(blocks, page), pages + {page})
  {
    var more := AddPage(blocks, page);
    forall i, p | Holds(more, i, p) ensures p in pages + {page} {
      if p != page { assert Holds(blocks, i, p); }
    }
    forall p | p in pages + {page} ensures exists i :: Holds(more, i, p) {
      if p == page {
        assert Holds(more, |more| - 1, p);
      } else {
        var i :| Holds(blocks, i, p);
        assert Holds(more, i, p);
      }
    }
  }
}
