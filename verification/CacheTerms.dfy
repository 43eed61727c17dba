/** The terms of the capacity rules spelled out: names, exports, pages, what one pair counts, and the four limits as numbers. */
module CacheTerms {
  import opened Prelude
  import opened Hex
  import opened Manifest
  import opened ShardStore
  import opened CacheInventory

  // ---- Names and DLLs ------------------------------------------------------

  /** Two runs of eight hexadecimal digits with an underscore between. */
  lemma CanonicalExactly(name: string)
    ensures CanonicalName(name) <==> exists a, b :: IsPairName(name, a, b)
  {
    if CanonicalName(name) { assert IsPairName(name, name[..8], name[9..]); }
    if a, b :| IsPairName(name, a, b) {
      assert name[8] == '_';
      forall i | 0 <= i < 8 ensures IsHexDigit(name[i]) { assert name[i] == a[i]; }
      forall i | 9 <= i < 17 ensures IsHexDigit(name[i]) { assert name[i] == b[i - 9]; }
    }
  }

  predicate IsPairName(name: string, a: string, b: string) {
    name == a + "_" + b && |a| == 8 && |b| == 8 && AllHex(a) && AllHex(b)
  }

  /** The low 32 bits of the two numbers agree. */
  ghost predicate SameLow(x: nat, y: nat) { exists q: int :: x - y == q * 0x1_0000_0000 }

  lemma LowExactly(x: nat, y: nat)
    ensures SameLow(x, y) <==> x % 0x1_0000_0000 == y % 0x1_0000_0000
  {
    if x % 0x1_0000_0000 == y % 0x1_0000_0000 {
      assert x - y == (x / 0x1_0000_0000 - y / 0x1_0000_0000) * 0x1_0000_0000;
    }
    if q: int :| x - y == q * 0x1_0000_0000 { SameRemainder(x, y, q); }
  }

  lemma SameRemainder(x: nat, y: nat, q: int)
    requires x - y == q * 0x1_0000_0000
    ensures x % 0x1_0000_0000 == y % 0x1_0000_0000
  {
    assert x == (y / 0x1_0000_0000 + q) * 0x1_0000_0000 + y % 0x1_0000_0000;
  }

  /** The DLL is a library of this ABI. */
  ghost predicate HasAbi(dll: Digest, abi: nat) { dll.of.Image? && dll.of.abi.Some? && SameLow(dll.of.abi.value, abi) }

  /** Both have a pair id and its low 64 bits agree, or neither has one. */
  predicate SamePair(dll: Digest, pair: Option<nat>) {
    dll.of.Image? && match pair
      case None => dll.of.pairId.None?
      case Some(id) => dll.of.pairId == Some(id % 0x1_0000_0000_0000_0000)
  }

  lemma SubsetByMembers(a: set<int>, b: set<int>)
    ensures a <= b <==> forall e :: e in a ==> e in b
  {
    if forall e :: e in a ==> e in b { assert a - b == {}; }
  }

  /** What the runtime loads: the ABI where one is asked for, the pair id, both hooks, and a function for every entry. */
  lemma ExportsExactly(dll: Digest, abi: Option<nat>, pair: Option<nat>, entries: set<int>)
    ensures ExportsMatch(dll, abi, pair, entries) <==>
      (dll.of.Image? && dll.of.abi.Some? && dll.of.hooks && SamePair(dll, pair) &&
       (abi.Some? ==> HasAbi(dll, abi.value)) && forall e :: e in entries ==> e in dll.of.entries)
    ensures abi.Some? ==> (AbiMatches(dll, abi.value) <==> HasAbi(dll, abi.value))
  {
    if dll.of.Image? && dll.of.abi.Some? {
      if abi.Some? { LowExactly(dll.of.abi.value, abi.value); }
      SubsetByMembers(entries, dll.of.entries);
      match pair
      case None =>
      case Some(id) =>
        if dll.of.pairId.Some? { assert dll.of.pairId == Some(dll.of.pairId.value); }
    }
  }

  /** A path of a scanned tier with such a name and ABI shadows its basename in every later tier. */
  lemma ChosenExactly(c: Cache, tiers: nat, abi: Option<nat>, k: Slot)
    ensures Chosen(c, tiers, abi, k) <==> Counts(c, tiers, abi, k) && forall t: nat :: t < k.tier ==> !Counts(c, tiers, abi, Slot(t, k.name))
  {
    CountsExactly(c, tiers, abi, k);
    forall t: nat ensures Indexed(c, tiers, abi, Slot(t, k.name)) <==> Counts(c, tiers, abi, Slot(t, k.name)) {
      CountsExactly(c, tiers, abi, Slot(t, k.name));
    }
  }

  ghost predicate Counts(c: Cache, tiers: nat, abi: Option<nat>, k: Slot) {
    && k in c && k.tier < tiers && (exists a, b :: IsPairName(k.name, a, b)) && c[k].dll.Some?
    && (abi.Some? ==> HasAbi(c[k].dll.value, abi.value))
  }

  lemma CountsExactly(c: Cache, tiers: nat, abi: Option<nat>, k: Slot)
    ensures Indexed(c, tiers, abi, k) <==> Counts(c, tiers, abi, k)
  {
    CanonicalExactly(k.name);
    if k in c && c[k].dll.Some? { ExportsExactly(c[k].dll.value, abi, None, {}); }
  }

  // ---- Pages ---------------------------------------------------------------

  /** A byte of some range lies on the page. */
  ghost predicate Touches(ranges: seq<Range>, page: int) { exists r, x :: r in ranges && HasByteOn(r, x, page) }

  predicate HasByteOn(r: Range, x: int, page: int) {
    r.start % 0x2000_0000 <= x < r.start % 0x2000_0000 + r.length && x / 4096 == page
  }

  lemma PagesExactly(r: Range, page: int)
    requires r.length > 0
    ensures page in Pages(r) <==> 0 <= page < 512 && exists x :: HasByteOn(r, x, page)
  {
    var lo, hi := r.start % 0x2000_0000, r.start % 0x2000_0000 + r.length - 1;
    if page in Pages(r) {
      assert lo / 4096 <= page <= hi / 4096;
      var x := Max(lo, page * 4096);
      OnPage(x, page, lo, hi);
      assert HasByteOn(r, x, page);
    }
    if x :| HasByteOn(r, x, page) { PagesOrdered(lo, x, hi); }
  }

  lemma OnPage(x: int, page: int, lo: int, hi: int)
    requires lo <= hi && lo / 4096 <= page <= hi / 4096 && x == Max(lo, page * 4096)
    ensures lo <= x <= hi && x / 4096 == page
  {
  }

  lemma PagesOrdered(lo: int, x: int, hi: int)
    requires lo <= x <= hi
    ensures lo / 4096 <= x / 4096 <= hi / 4096
  {
  }

  /** The pages of a function are those of RAM that a byte of its ranges lies on, each once. */
  lemma {:induction false} PageSetExactly(ranges: seq<Range>, page: int)
    requires forall r :: r in ranges ==> r.length > 0
    ensures page in PageSet(ranges) <==> 0 <= page < 512 && Touches(ranges, page)
    decreases |ranges|
  {
    if ranges != [] {
      var init, last := ranges[..|ranges|-1], ranges[|ranges|-1];
      assert ranges == init + [last] && last in ranges;
      PageSetExactly(init, page);
      PagesExactly(last, page);
      if Touches(ranges, page) {
        var r, x :| r in ranges && HasByteOn(r, x, page);
        assert r in init || r == last;
      }
      if page in PageSet(init) {
        var r, x :| r in init && HasByteOn(r, x, page);
        assert r in ranges;
      }
    }
  }

  /** Function by function, whatever the order. */
  lemma LinksAdd(funcs: seq<FuncId>, f: FuncId)
    ensures LinkCount([]) == 0 && LinkCount(funcs + [f]) == LinkCount(funcs) + |PageSet(f.ranges)|
  {
    assert (funcs + [f])[..|funcs|] == funcs;
  }

  // ---- What one pair counts ---------------------------------------------------

  /** Both files are there and not empty, and the manifest is a text of 7-bit characters. */
  predicate Readable(p: Pair) {
    && p.dll.Some? && p.dll.value.of != Raw([]) && p.dll.value.of != Text([])
    && p.ranges.Some? && p.ranges.value.of.Text? && |p.ranges.value.of.text| > 0
    && forall i :: 0 <= i < |p.ranges.value.of.text| ==> p.ranges.value.of.text[i] as int < 128
  }

  lemma AsciiExactly(text: string)
    ensures Ascii(text) <==> forall i :: 0 <= i < |text| ==> text[i] as int < 128
  {
    if forall i :: 0 <= i < |text| ==> text[i] as int < 128 {
      forall c | c in text ensures c < '\U{80}' { var i :| 0 <= i < |text| && text[i] == c; }
    }
    if Ascii(text) {
      forall i | 0 <= i < |text| ensures text[i] as int < 128 { assert text[i] in text; }
    }
  }

  lemma ReadableExactly(p: Pair)
    ensures Readable(p) <==> (p.dll.Some? && !EmptyFile(p.dll.value) && p.ranges.Some? && !EmptyFile(p.ranges.value)
                              && p.ranges.value.of.Text? && Ascii(p.ranges.value.of.text))
  {
    if p.ranges.Some? && p.ranges.value.of.Text? { AsciiExactly(p.ranges.value.of.text); }
  }

  /** The runtime loads the pair: its manifest has functions and its DLL exports what they need. */
  predicate Loads(p: Pair, abi: Option<nat>) {
    Readable(p) && var r := Parse(p.ranges.value.of.text, false);
    r.funcs != [] && ExportsMatch(p.dll.value, abi, r.pair, EntriesOf(r.funcs))
  }

  /** A pair that loads counts its rows once per identity; one that does not counts as a file, with its raw rows and links. */
  lemma EntryExactly(tier: nat, p: Pair, abi: Option<nat>)
    ensures Loadable(p, abi) <==> Loads(p, abi)
    ensures !Readable(p) ==> EntryOf(tier, p, abi) == Entry(0, None, 0, 0)
    ensures Readable(p) ==> var r := Parse(p.ranges.value.of.text, false);
      EntryOf(tier, p, abi) == Entry(if Loads(p, abi) then |r.funcs| else 0,
                                     if Loads(p, abi) then Identity(tier, p.ranges.value.of.text, r.pair, r.funcs) else None,
                                     |r.funcs|, LinkCount(r.funcs))
  {
    ReadableExactly(p);
  }

  /** The same function with the same guards, seen through any mirror of RAM. */
  predicate SameFunc(f: FuncId, g: FuncId) {
    && f.entry % 0x2000_0000 == g.entry % 0x2000_0000 && f.crc == g.crc && |f.ranges| == |g.ranges|
    && forall i :: 0 <= i < |f.ranges| ==>
         f.ranges[i].start % 0x2000_0000 == g.ranges[i].start % 0x2000_0000 && f.ranges[i].length == g.ranges[i].length
  }

  predicate SameFuncs(a: seq<FuncId>, b: seq<FuncId>) {
    |a| == |b| && forall i :: 0 <= i < |a| ==> SameFunc(a[i], b[i])
  }

  lemma SameFuncsExactly(a: seq<FuncId>, b: seq<FuncId>)
    ensures NormalizedFuncs(a) == NormalizedFuncs(b) <==> SameFuncs(a, b)
  {
    if NormalizedFuncs(a) == NormalizedFuncs(b) {
      assert |NormalizedFuncs(a)| == |a| && |NormalizedFuncs(b)| == |b|;
      forall i | 0 <= i < |a| ensures SameFunc(a[i], b[i]) {
        assert NormalizedFuncs(a)[i] == NormalizedFuncs(b)[i];
        SameRanges(a[i].ranges, b[i].ranges);
      }
    }
    if SameFuncs(a, b) {
      forall i | 0 <= i < |a| ensures NormalizedFuncs(a)[i] == NormalizedFuncs(b)[i] {
        assert SameFunc(a[i], b[i]);
        assert NormalizedRanges(a[i].ranges) == NormalizedRanges(b[i].ranges);
      }
      assert NormalizedFuncs(a) == NormalizedFuncs(b);
    }
  }

  lemma SameRanges(a: seq<Range>, b: seq<Range>)
    requires NormalizedRanges(a) == NormalizedRanges(b)
    ensures |a| == |b| && forall i :: 0 <= i < |a| ==> a[i].start % 0x2000_0000 == b[i].start % 0x2000_0000 && a[i].length == b[i].length
  {
    assert |NormalizedRanges(a)| == |a| && |NormalizedRanges(b)| == |b|;
    forall i | 0 <= i < |a| ensures a[i].start % 0x2000_0000 == b[i].start % 0x2000_0000 && a[i].length == b[i].length {
      assert NormalizedRanges(a)[i] == NormalizedRanges(b)[i];
    }
  }

  /** Two pairs share their cost if and only if they have a known identity and agree in tier, pair id, provenance and functions. */
  lemma IdentityExactly(t: nat, m: string, p: Option<nat>, a: seq<FuncId>, u: nat, n: string, q: Option<nat>, b: seq<FuncId>)
    ensures Identity(t, m, p, a).None? <==> p.None? || (DeclaresProvenance(m) && Provenance(m).None?)
    ensures Identity(t, m, p, a).Some? && Identity(u, n, q, b).Some? ==>
      (Identity(t, m, p, a) == Identity(u, n, q, b) <==> (t == u && p == q && Provenance(m) == Provenance(n) && SameFuncs(a, b)))
  {
    SameFuncsExactly(a, b);
  }

  // ---- The limits ---------------------------------------------------------------

  /** Too much, and more than before. */
  predicate Exceeds(after: nat, limit: nat, before: nat) { after > limit && after > before }

  /** The verdict names the first limit that is exceeded, in the order candidates, raw rows, page links, files. */
  lemma VerdictExactly(before: Usage, after: Usage, cap: nat)
    ensures CapacityVerdict(before, after, cap) ==
      if Exceeds(after.candidates, cap, before.candidates) then CandidateCap
      else if Exceeds(after.raw, cap + cap, before.raw) then LazyManifestCap
      else if Exceeds(after.links, 16 * cap, before.links) then RangeLinkCap
      else if Exceeds(after.files, 4096, before.files) then FileCap
      else Fits
    ensures Bounded(after, before, cap) <==>
      !Exceeds(after.candidates, cap, before.candidates) && !Exceeds(after.raw, cap + cap, before.raw) &&
      !Exceeds(after.links, 16 * cap, before.links) && !Exceeds(after.files, 4096, before.files)
  {
  }
}
