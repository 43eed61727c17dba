/**
 What a cache costs the runtime: cache_candidate_inventory over the recovered
 namespace, and the prediction of one publication made from that inventory alone.
 */
module CacheInventory {
  import opened Prelude
  import opened Manifest
  import opened ShardStore

  /** The recovered namespace: every slot that stands for a DLL, with its pair. */
  type Cache = map<Slot, Pair>

  /** `_candidate_group_identity`: tier leaf, pair id, provenance and normalised rows. */
  datatype GroupId = GroupId(tier: nat, pair: nat, provenance: Option<string>, funcs: seq<FuncId>)

  datatype Entry = Entry(count: nat, identity: Option<GroupId>, raw: nat, links: nat)

  /** Deduplicated candidates, raw F rows, page links, files. */
  datatype Usage = Usage(candidates: nat, raw: nat, links: nat, files: nat)

  const PAGE_COUNT := 512
  const FILE_CAP := 4096

  predicate CanonicalName(name: string) {
    |name| == 17 && name[8] == '_'
    && (forall i :: 0 <= i < 8 ==> Hex.IsHexDigit(name[i]))
    && (forall i :: 9 <= i < 17 ==> Hex.IsHexDigit(name[i]))
  }

  // ---- One pair ----------------------------------------------------------

  /** `_dll_abi_matches` */
  predicate AbiMatches(dll: Digest, abi: nat) {
    dll.of.Image? && dll.of.abi.Some? && dll.of.abi.value % 0x1_0000_0000 == abi % 0x1_0000_0000
  }

  /** `_dll_runtime_exports_match` */
  predicate ExportsMatch(dll: Digest, abi: Option<nat>, pair: Option<nat>, entries: set<int>) {
    && dll.of.Image? && dll.of.abi.Some?
    && (abi.Some? ==> AbiMatches(dll, abi.value))
    && (pair.None? <==> dll.of.pairId.None?)
    && (pair.Some? ==> dll.of.pairId.value == pair.value % 0x1_0000_0000_0000_0000)
    && dll.of.hooks
    && entries <= dll.of.entries
  }

  predicate Ascii(text: string) { forall c :: c in text ==> c < '\U{80}' }

  predicate EmptyFile(d: Digest) { d.of == Raw([]) || d.of == Text([]) }

  function NormalizedRanges(ranges: seq<Range>): seq<Range> {
    seq(|ranges|, i requires 0 <= i < |ranges| => Range(Phys(ranges[i].start), ranges[i].length))
  }

  function NormalizedFuncs(funcs: seq<FuncId>): seq<FuncId> {
    seq(|funcs|, i requires 0 <= i < |funcs| =>
      FuncId(Phys(funcs[i].entry), funcs[i].crc, NormalizedRanges(funcs[i].ranges)))
  }

  /** `_normalized_runtime_manifest_identity`, with its directory. */
  function Identity(tier: nat, manifest: string, pair: Option<nat>, funcs: seq<FuncId>): Option<GroupId> {
    if pair.None? || (DeclaresProvenance(manifest) && Provenance(manifest).None?) then None
    else Some(GroupId(tier, pair.value, Provenance(manifest), NormalizedFuncs(funcs)))
  }

  predicate Within(lo: int, p: int, hi: int) { lo <= p <= hi }

  function PageRun(lo: int, hi: int): set<int> {
    set p: int | 0 <= p < PAGE_COUNT && Within(lo, p, hi)
  }

  /** The 4 KiB pages of RAM a guarded range touches. */
  function Pages(r: Range): set<int> {
    PageRun(Phys(r.start) / 4096, (Phys(r.start) + r.length - 1) / 4096)
  }

  function PageSet(ranges: seq<Range>): set<int> {
    if ranges == [] then {} else PageSet(ranges[..|ranges|-1]) + Pages(ranges[|ranges|-1])
  }

  function LinkCount(funcs: seq<FuncId>): nat {
    if funcs == [] then 0 else LinkCount(funcs[..|funcs|-1]) + |PageSet(funcs[|funcs|-1].ranges)|
  }

  /** `_runtime_manifest_range_link_count` */
  method RuntimeManifestRangeLinkCount(funcs: seq<FuncId>) returns (total: nat)
    requires forall f :: f in funcs ==> forall r :: r in f.ranges ==> r.length > 0
    ensures total == LinkCount(funcs)
  {
    total := 0;
    for i := 0 to |funcs|
      invariant total == LinkCount(funcs[..i])
    {
      var ranges := funcs[i].ranges;
      assert funcs[i] in funcs;
      var seen: set<int> := {};
      for j := 0 to |ranges|
        invariant seen == PageSet(ranges[..j])
      {
        var lo := Phys(ranges[j].start);
        var hi := lo + ranges[j].length - 1;
        var p0, p1 := lo / 4096, hi / 4096;
        assert ranges[..j+1][..j] == ranges[..j];
        if p0 >= PAGE_COUNT {
          assert Pages(ranges[j]) == {};
          continue;
        }
        p1 := Min(p1, PAGE_COUNT - 1);
        assert PageRun(p0, p1) == Pages(ranges[j]);
        seen := seen + PageRun(p0, p1);
      }
      assert ranges[..|ranges|] == ranges;
      assert funcs[..i+1][..i] == funcs[..i];
      total := total + |seen|;
    }
    assert funcs[..|funcs|] == funcs;
  }

  function EntriesOf(funcs: seq<FuncId>): set<int> {
    set f | f in funcs :: Canonical(f.entry)
  }

  const NOTHING := Entry(0, None, 0, 0)

  /** `_load_candidate_inventory_record` of a recovered pair. */
  function EntryOf(tier: nat, p: Pair, abi: Option<nat>): Entry {
    if p.dll.None? || EmptyFile(p.dll.value) || p.ranges.None? || EmptyFile(p.ranges.value) then NOTHING
    else if !p.ranges.value.of.Text? || !Ascii(p.ranges.value.of.text) then NOTHING
    else
      var manifest := p.ranges.value.of.text;
      var r := Parse(manifest, false);
      var raw, links := |r.funcs|, LinkCount(r.funcs);
      if r.funcs == [] || !ExportsMatch(p.dll.value, abi, r.pair, EntriesOf(r.funcs)) then Entry(0, None, raw, links)
      else Entry(raw, Identity(tier, manifest, r.pair, r.funcs), raw, links)
  }

  /** `_runtime_valid_shard_pair_locked` */
  predicate Loadable(p: Pair, abi: Option<nat>) {
    && p.dll.Some? && !EmptyFile(p.dll.value) && p.ranges.Some? && !EmptyFile(p.ranges.value)
    && p.ranges.value.of.Text? && Ascii(p.ranges.value.of.text)
    && var r := Parse(p.ranges.value.of.text, false);
       r.funcs != [] && ExportsMatch(p.dll.value, abi, r.pair, EntriesOf(r.funcs))
  }

  // ---- The whole namespace -----------------------------------------------

  /** The runtime's ABI preflight keeps this DLL in its index. */
  predicate Indexed(c: Cache, tiers: nat, abi: Option<nat>, k: Slot) {
    && k in c && k.tier < tiers && CanonicalName(k.name) && c[k].dll.Some?
    && (abi.Some? ==> AbiMatches(c[k].dll.value, abi.value))
  }

  /** The highest tier with a usable DLL of this basename shadows the others. */
  predicate Chosen(c: Cache, tiers: nat, abi: Option<nat>, k: Slot) {
    Indexed(c, tiers, abi, k) && forall t: nat :: t < k.tier ==> !Indexed(c, tiers, abi, Slot(t, k.name))
  }

  type Entries = map<Slot, Entry>

  function Selection(c: Cache, tiers: nat, abi: Option<nat>): Entries {
    map k | k in c && Chosen(c, tiers, abi, k) :: EntryOf(k.tier, c[k], abi)
  }

  // Sums over finite maps, in any order.

  ghost function SumBy(es: Entries, f: Entry -> nat): nat
    decreases es.Keys
  {
    if es.Keys == {} then 0
    else
      var k :| k in es.Keys;
      f(es[k]) + SumBy(es - {k}, f)
  }

  lemma {:induction false} SumWithout(es: Entries, f: Entry -> nat, k: Slot)
    requires k in es
    ensures SumBy(es, f) == f(es[k]) + SumBy(es - {k}, f)
    decreases es.Keys
  {
    var p :| p in es.Keys && SumBy(es, f) == f(es[p]) + SumBy(es - {p}, f);
    if p != k {
      SumWithout(es - {p}, f, k);
      SumWithout(es - {k}, f, p);
      assert es - {p} - {k} == es - {k} - {p};
    }
  }

  /** What an entry adds on its own, before identities are shared. */
  function Alone(e: Entry): nat { if e.identity.None? then e.count else 0 }

  function RawRows(e: Entry): nat { e.raw }

  function PageLinks(e: Entry): nat { e.links }

  ghost function Identities(es: Entries): set<GroupId> {
    set k | k in es && es[k].identity.Some? :: es[k].identity.value
  }

  ghost function Cost(ids: set<GroupId>): nat {
    if ids == {} then 0 else var i :| i in ids; |i.funcs| + Cost(ids - {i})
  }

  lemma {:induction false} CostWithout(ids: set<GroupId>, i: GroupId)
    requires i in ids
    ensures Cost(ids) == |i.funcs| + Cost(ids - {i})
  {
    var p :| p in ids && Cost(ids) == |p.funcs| + Cost(ids - {p});
    if p != i {
      CostWithout(ids - {p}, i);
      CostWithout(ids - {i}, p);
      assert ids - {p} - {i} == ids - {i} - {p};
    }
  }

  ghost function UsageOf(es: Entries): Usage {
    Usage(Candidates(es), SumBy(es, RawRows), SumBy(es, PageLinks), |es|)
  }

  /** An identity carries its rows, so equal identities have equal cost. */
  predicate Honest(e: Entry) {
    e.identity.Some? ==> e.count == |e.identity.value.funcs|
  }

  predicate AllHonest(es: Entries) { forall k :: k in es ==> Honest(es[k]) }

  lemma SelectionHonest(c: Cache, tiers: nat, abi: Option<nat>)
    ensures AllHonest(Selection(c, tiers, abi))
  {
  }

  // ---- Tallying ----------------------------------------------------------

  /** Dictionary order: every key once. */
  ghost predicate Lists(order: seq<Slot>, es: Entries) {
    && (forall i, j :: 0 <= i < j < |order| ==> order[i] != order[j])
    && (forall k :: k in order <==> k in es)
  }

  ghost function Prefix(order: seq<Slot>, es: Entries, n: nat): Entries
    requires n <= |order| && forall k :: k in order ==> k in es
  {
    map k | k in order[..n] :: es[k]
  }

  lemma SumAdded(es: Entries, f: Entry -> nat, k: Slot, e: Entry)
    requires k !in es
    ensures SumBy(es[k := e], f) == f(e) + SumBy(es, f)
  {
    SumWithout(es[k := e], f, k);
    assert es[k := e] - {k} == es;
  }

  lemma IdentitiesAdded(es: Entries, k: Slot, e: Entry)
    requires k !in es
    ensures Identities(es[k := e]) == Identities(es) + (if e.identity.Some? then {e.identity.value} else {})
  {
    var more := es[k := e];
    forall i | i in Identities(es) ensures i in Identities(more) {
      var q :| q in es && es[q].identity == Some(i);
      assert more[q] == es[q];
    }
    assert more[k] == e;
  }

  /** What this entry adds to the candidate total. */
  function Extra(e: Entry, seen: set<GroupId>): nat {
    if e.identity.None? || e.identity.value !in seen then e.count else 0
  }

  lemma CostAdded(ids: set<GroupId>, e: Entry)
    requires Honest(e)
    ensures Cost(ids + (if e.identity.Some? then {e.identity.value} else {})) + Alone(e) == Cost(ids) + Extra(e, ids)
  {
    if e.identity.Some? {
      var i := e.identity.value;
      CostWithout(ids + {i}, i);
      if i in ids {
        assert ids + {i} == ids;
      } else {
        assert ids + {i} - {i} == ids;
      }
    } else {
      assert ids + {} == ids;
    }
  }

  function Plus(u: Usage, e: Entry, seen: set<GroupId>): Usage {
    Usage(u.candidates + Extra(e, seen), u.raw + e.raw, u.links + e.links, u.files + 1)
  }

  ghost function Candidates(es: Entries): nat {
    SumBy(es, Alone) + Cost(Identities(es))
  }

  lemma AddedCandidates(es: Entries, k: Slot, e: Entry)
    requires k !in es && Honest(e)
    ensures Candidates(es[k := e]) == Candidates(es) + Extra(e, Identities(es))
  {
    SumAdded(es, Alone, k, e);
    IdentitiesAdded(es, k, e);
    CostAdded(Identities(es), e);
  }

  lemma AddedSize(es: Entries, k: Slot, e: Entry)
    requires k !in es
    ensures |es[k := e]| == |es| + 1
  {
    assert es[k := e].Keys == es.Keys + {k};
  }

  lemma AddedUsage(es: Entries, k: Slot, e: Entry)
    requires k !in es && Honest(e)
    ensures UsageOf(es[k := e]) == Plus(UsageOf(es), e, Identities(es))
  {
    AddedCandidates(es, k, e);
    SumAdded(es, RawRows, k, e);
    SumAdded(es, PageLinks, k, e);
    AddedSize(es, k, e);
  }

  lemma PrefixGrows(order: seq<Slot>, es: Entries, i: nat)
    requires Lists(order, es) && i < |order|
    ensures order[i] in es && order[i] !in Prefix(order, es, i)
    ensures Prefix(order, es, i + 1) == Prefix(order, es, i)[order[i] := es[order[i]]]
  {
    assert order[i] in order;
    assert order[..i+1] == order[..i] + [order[i]];
  }

  ghost predicate Counted(order: seq<Slot>, es: Entries, i: nat, u: Usage, seen: set<GroupId>) {
    && i <= |order| && Lists(order, es) && AllHonest(es)
    && u == UsageOf(Prefix(order, es, i)) && seen == Identities(Prefix(order, es, i))
  }

  function Noted(seen: set<GroupId>, e: Entry): set<GroupId> {
    if e.identity.Some? then seen + {e.identity.value} else seen
  }

  lemma CountStep(order: seq<Slot>, es: Entries, i: nat, u: Usage, seen: set<GroupId>)
    requires i < |order| && Counted(order, es, i, u, seen)
    ensures order[i] in es
    ensures Counted(order, es, i + 1, Plus(u, es[order[i]], seen), Noted(seen, es[order[i]]))
  {
    PrefixGrows(order, es, i);
    AddedUsage(Prefix(order, es, i), order[i], es[order[i]]);
    IdentitiesAdded(Prefix(order, es, i), order[i], es[order[i]]);
  }

  /** The counting loop: one candidate cost per identity, everything else undeduplicated. */
  method Tally(order: seq<Slot>, es: Entries) returns (u: Usage)
    requires Lists(order, es) && AllHonest(es)
    ensures u == UsageOf(es)
  {
    u := Usage(0, 0, 0, 0);
    var seen: set<GroupId> := {};
    var i := 0;
    assert Prefix(order, es, 0) == map[];
    while i < |order|
      invariant Counted(order, es, i, u, seen)
    {
      CountStep(order, es, i, u, seen);
      var e := es[order[i]];
      u, seen := Plus(u, e, seen), Noted(seen, e);
      i := i + 1;
    }
    assert Prefix(order, es, |order|) == es;
  }

  // ---- Inventory ---------------------------------------------------------

  function DllSlots(files: Files): set<Slot> {
    set p | p in files && p.Shard? && p.kind == Dll :: p.slot
  }

  /** What a scan of a journal-free namespace reads. */
  function VisibleCache(files: Files): Cache {
    map k | k in DllSlots(files) :: Visible(files, k)
  }

  predicate UniqueNames(es: Entries) {
    forall j, k :: j in es && k in es && j.name == k.name ==> j == k
  }

  lemma SelectionNames(c: Cache, tiers: nat, abi: Option<nat>)
    ensures UniqueNames(Selection(c, tiers, abi))
  {
    forall j, k | j in Selection(c, tiers, abi) && k in Selection(c, tiers, abi) && j.name == k.name
      ensures j == k
    {
      assert j == Slot(j.tier, j.name) && k == Slot(k.tier, k.name);
    }
  }

  ghost predicate Scanned(c: Cache, tiers: nat, abi: Option<nat>, seenSlots: set<Slot>,
                          order: seq<Slot>, es: Entries, names: set<string>) {
    && seenSlots <= c.Keys
    && es == (map k | k in c && k in seenSlots && Chosen(c, tiers, abi, k) :: EntryOf(k.tier, c[k], abi))
    && Lists(order, es)
    && (forall n :: n in names <==> exists k :: k in seenSlots && k.name == n && Indexed(c, tiers, abi, k))
  }

  /** A name already seen is exactly a shadowed name. */
  lemma ScanShadow(c: Cache, tiers: nat, abi: Option<nat>, seenSlots: set<Slot>, names: set<string>, k: Slot)
    requires forall n :: n in names <==> exists j :: j in seenSlots && j.name == n && Indexed(c, tiers, abi, j)
    requires Indexed(c, tiers, abi, k) && k !in seenSlots
    requires forall j :: j in c && j.tier < k.tier ==> j in seenSlots
    requires forall j :: j in seenSlots ==> j.tier <= k.tier
    ensures k.name in names <==> !Chosen(c, tiers, abi, k)
  {
    if k.name in names {
      var j :| j in seenSlots && j.name == k.name && Indexed(c, tiers, abi, j);
      assert j == Slot(j.tier, k.name) && j.tier < k.tier;
    } else {
      forall t: nat | t < k.tier ensures !Indexed(c, tiers, abi, Slot(t, k.name)) { }
    }
  }

  ghost predicate ScanStart(c: Cache, seenSlots: set<Slot>, k: Slot) {
    && k in c && k !in seenSlots
    && (forall j :: j in c && j.tier < k.tier ==> j in seenSlots)
    && (forall j :: j in seenSlots ==> j.tier <= k.tier)
  }

  /** The loop body of the scan for a DLL name that is counted. */
  lemma ScanCounted(c: Cache, tiers: nat, abi: Option<nat>, seenSlots: set<Slot>,
                    order: seq<Slot>, es: Entries, names: set<string>, k: Slot)
    requires Scanned(c, tiers, abi, seenSlots, order, es, names) && ScanStart(c, seenSlots, k)
    requires Indexed(c, tiers, abi, k) && k.name !in names
    ensures Scanned(c, tiers, abi, seenSlots + {k}, order + [k], es[k := EntryOf(k.tier, c[k], abi)], names + {k.name})
  {
    ScanShadow(c, tiers, abi, seenSlots, names, k);
    assert k !in es;
  }

  /** The loop body of the scan for a DLL name that is skipped. */
  lemma ScanSkipped(c: Cache, tiers: nat, abi: Option<nat>, seenSlots: set<Slot>,
                    order: seq<Slot>, es: Entries, names: set<string>, k: Slot)
    requires Scanned(c, tiers, abi, seenSlots, order, es, names) && ScanStart(c, seenSlots, k)
    requires !Indexed(c, tiers, abi, k) || k.name in names
    ensures Scanned(c, tiers, abi, seenSlots + {k}, order, es, names)
  {
    if Indexed(c, tiers, abi, k) {
      ScanShadow(c, tiers, abi, seenSlots, names, k);
    }
  }

  /**
   cache_candidate_inventory of a recovered namespace.  Tiers are scanned in order;
   the order of the names inside one tier does not matter.
   */
  method CacheCandidateInventory(files: Files, tiers: nat, abi: Option<nat>)
    returns (usage: Usage, order: seq<Slot>, entries: Entries)
    ensures entries == Selection(VisibleCache(files), tiers, abi) && Lists(order, entries)
    ensures usage == UsageOf(entries) && AllHonest(entries) && UniqueNames(entries)
  {
    var c := VisibleCache(files);
    var names: set<string> := {};
    order, entries := [], map[];
    ghost var seenSlots: set<Slot> := {};
    for tier := 0 to tiers
      invariant Scanned(c, tiers, abi, seenSlots, order, entries, names)
      invariant forall k :: k in c && k.tier < tier <==> k in seenSlots
    {
      var todo := set k | k in c && k.tier == tier;
      while todo != {}
        invariant Scanned(c, tiers, abi, seenSlots, order, entries, names)
        invariant forall k :: k in c && k.tier <= tier <==> k in seenSlots || k in todo
        invariant forall k :: k in todo ==> k.tier == tier && k !in seenSlots
        decreases todo
      {
        var k :| k in todo;
        todo := todo - {k};
        if CanonicalName(k.name) && (abi.Some? ==> AbiMatches(c[k].dll.value, abi.value)) && k.name !in names {
          ScanCounted(c, tiers, abi, seenSlots, order, entries, names, k);
          names := names + {k.name};
          order := order + [k];
          entries := entries[k := EntryOf(k.tier, c[k], abi)];
        } else {
          ScanSkipped(c, tiers, abi, seenSlots, order, entries, names, k);
        }
        seenSlots := seenSlots + {k};
      }
    }
    SelectionHonest(c, tiers, abi);
    SelectionNames(c, tiers, abi);
    assert entries == Selection(c, tiers, abi) by {
      forall k | k in c && Chosen(c, tiers, abi, k) ensures k in seenSlots { }
    }
    usage := Tally(order, entries);
  }

  // ---- Projection --------------------------------------------------------

  function SameName(es: Entries, name: string): set<Slot> {
    set k | k in es && k.name == name
  }

  predicate ShadowedBy(es: Entries, k: Slot) {
    exists s :: s in es && s.name == k.name && s.tier < k.tier
  }

  /** The inventory after `k` has received a pair that costs `staged`. */
  function Projected(es: Entries, k: Slot, staged: Entry): Entries {
    if ShadowedBy(es, k) then es else (es - SameName(es, k.name))[k := staged]
  }

  method WithoutSlot(order: seq<Slot>, es: Entries, s: Slot) returns (rest: seq<Slot>)
    requires Lists(order, es)
    ensures Lists(rest, es - {s})
  {
    rest := [];
    for i := 0 to |order|
      invariant forall k :: k in rest <==> k in order[..i] && k != s
      invariant forall a, b :: 0 <= a < b < |rest| ==> rest[a] != rest[b]
    {
      assert order[i] !in order[..i] && order[..i+1] == order[..i] + [order[i]];
      if order[i] != s {
        rest := rest + [order[i]];
      }
    }
  }

  lemma ListsSnoc(order: seq<Slot>, es: Entries, k: Slot, e: Entry)
    requires Lists(order, es) && k !in es
    ensures Lists(order + [k], es[k := e])
  {
    forall i | 0 <= i < |order| ensures order[i] != k {
      assert order[i] in order;
    }
  }

  /** The counted path of this basename, if there is one. */
  method SelectedPath(order: seq<Slot>, ghost es: Entries, name: string) returns (s: Option<Slot>)
    requires Lists(order, es) && UniqueNames(es)
    ensures s.None? ==> SameName(es, name) == {}
    ensures s.Some? ==> s.value in es && SameName(es, name) == {s.value}
  {
    var i := 0;
    while i < |order| && order[i].name != name
      invariant 0 <= i <= |order|
      invariant forall j :: 0 <= j < i ==> order[j].name != name
    {
      i := i + 1;
    }
    if i < |order| {
      assert order[i] in order;
      return Some(order[i]);
    }
    forall s | s in es ensures s.name != name {
      assert s in order;
    }
    return None;
  }

  lemma ShadowBySelected(es: Entries, k: Slot, s: Slot)
    requires s in es && SameName(es, k.name) == {s}
    ensures ShadowedBy(es, k) <==> s.tier < k.tier
  {
    assert s in SameName(es, k.name);
    forall q | q in es && q.name == k.name ensures q == s {
      assert q in SameName(es, k.name);
    }
  }

  /** `_projected_cache_capacity_usage` */
  method ProjectedCacheCapacityUsage(usage: Usage, order: seq<Slot>, es: Entries, k: Slot, staged: Entry)
    returns (u: Usage)
    requires Lists(order, es) && AllHonest(es) && UniqueNames(es) && Honest(staged)
    ensures u == if ShadowedBy(es, k) then usage else UsageOf(Projected(es, k, staged))
  {
    var selected := SelectedPath(order, es, k.name);
    var rest, left := order, es;
    if selected.Some? {
      ShadowBySelected(es, k, selected.value);
      if k.tier > selected.value.tier {
        return usage;
      }
      rest := WithoutSlot(order, es, selected.value);
      left := es - {selected.value};
    }
    assert left == es - SameName(es, k.name);
    assert !ShadowedBy(es, k) by {
      if s :| s in es && s.name == k.name && s.tier < k.tier {
        assert s in SameName(es, k.name);
      }
    }
    assert k !in left;
    ListsSnoc(rest, left, k, staged);
    u := Tally(rest + [k], left[k := staged]);
  }

  /** The capacity verdicts, in the order they are tried. */
  datatype Verdict = Fits | CandidateCap | LazyManifestCap | RangeLinkCap | FileCap

  /** `_candidate_capacity_projection_error` */
  function CapacityVerdict(before: Usage, after: Usage, cap: nat): Verdict {
    if after.candidates > cap && after.candidates > before.candidates then CandidateCap
    else if after.raw > 2 * cap && after.raw > before.raw then LazyManifestCap
    else if after.links > 2 * cap * 8 && after.links > before.links then RangeLinkCap
    else if after.files > FILE_CAP && after.files > before.files then FileCap
    else Fits
  }

  predicate Bounded(u: Usage, start: Usage, cap: nat) {
    && u.candidates <= Max(cap, start.candidates)
    && u.raw <= Max(2 * cap, start.raw)
    && u.links <= Max(2 * cap * 8, start.links)
    && u.files <= Max(FILE_CAP, start.files)
  }

  /** An admitted projection keeps every bound, and a refused one would break one of them. */
  lemma VerdictIsExact(before: Usage, after: Usage, cap: nat)
    ensures CapacityVerdict(before, after, cap) == Fits <==> Bounded(after, before, cap)
  {
  }

  // ---- The projection is the inventory afterwards ------------------------

  /** What publication counts for a staged pair, from its manifest alone. */
  function StagedEntry(tier: nat, manifest: string): Entry {
    var r := Parse(manifest, true);
    Entry(|r.funcs|, Identity(tier, manifest, r.pair, r.funcs), |r.funcs|, LinkCount(r.funcs))
  }

  predicate StagedManifest(p: Pair) {
    p.ranges.Some? && p.ranges.value.of.Text? && Ascii(p.ranges.value.of.text)
    && Parse(p.ranges.value.of.text, true).funcs != []
  }

  /** The staged DLL passes the preflight that decides whether the runtime indexes it. */
  predicate StagedAbi(p: Pair, abi: Option<nat>) {
    p.dll.Some? && (abi.Some? ==> AbiMatches(p.dll.value, abi.value))
  }

  predicate RuntimeValid(p: Pair, abi: Option<nat>) {
    StagedManifest(p) && p.dll.Some? &&
    var r := Parse(p.ranges.value.of.text, true);
    ExportsMatch(p.dll.value, abi, r.pair, EntriesOf(r.funcs))
  }

  lemma PairedParse(manifest: string)
    requires Parse(manifest, true).funcs != []
    ensures Parse(manifest, false) == Parse(manifest, true)
  {
  }

  lemma StagedEntryIsEntry(tier: nat, p: Pair, abi: Option<nat>)
    requires StagedManifest(p) && StagedAbi(p, abi)
    ensures var staged, actual := StagedEntry(tier, p.ranges.value.of.text), EntryOf(tier, p, abi);
      && Honest(staged)
      && (if EmptyFile(p.dll.value) then actual.raw == 0 && actual.links == 0
          else actual.raw == staged.raw && actual.links == staged.links)
      && (if RuntimeValid(p, abi) then actual == staged else actual.count == 0 && actual.identity.None?)
  {
    PairedParse(p.ranges.value.of.text);
  }

  lemma IndexedElsewhere(c: Cache, tiers: nat, abi: Option<nat>, k: Slot, p: Pair, j: Slot)
    requires j != k
    ensures Indexed(c[k := p], tiers, abi, j) <==> Indexed(c, tiers, abi, j)
  {
  }

  lemma ShadowIsSelected(c: Cache, tiers: nat, abi: Option<nat>, k: Slot, t: nat)
    requires t < k.tier && Indexed(c, tiers, abi, Slot(t, k.name))
    ensures ShadowedBy(Selection(c, tiers, abi), k)
  {
    var low := LowestTier(c, tiers, abi, k.name, t);
    assert Slot(low, k.name) in Selection(c, tiers, abi);
  }

  lemma ChosenAtTarget(c: Cache, tiers: nat, abi: Option<nat>, k: Slot, p: Pair)
    requires k.tier < tiers && CanonicalName(k.name) && StagedAbi(p, abi)
    ensures ShadowedBy(Selection(c, tiers, abi), k) <==> !Chosen(c[k := p], tiers, abi, k)
  {
    if s :| s in Selection(c, tiers, abi) && s.name == k.name && s.tier < k.tier {
      assert s == Slot(s.tier, k.name);
      IndexedElsewhere(c, tiers, abi, k, p, s);
    }
    if t: nat :| t < k.tier && Indexed(c[k := p], tiers, abi, Slot(t, k.name)) {
      ShadowIsSelected(c, tiers, abi, k, t);
    }
  }

  /** Installing a pair changes the runtime's selection exactly as the projection says. */
  lemma SelectionAfterInstall(c: Cache, tiers: nat, abi: Option<nat>, k: Slot, p: Pair)
    requires k.tier < tiers && CanonicalName(k.name) && StagedAbi(p, abi)
    ensures Selection(c[k := p], tiers, abi)
         == Projected(Selection(c, tiers, abi), k, EntryOf(k.tier, p, abi))
  {
    var d := c[k := p];
    var es, fs := Selection(c, tiers, abi), Selection(d, tiers, abi);
    var proj := Projected(es, k, EntryOf(k.tier, p, abi));
    ChosenAtTarget(c, tiers, abi, k, p);
    forall j: Slot ensures j in fs <==> j in proj {
      SelectionAfterInstallAt(c, tiers, abi, k, p, j);
    }
    forall j: Slot | j in fs ensures fs[j] == proj[j] { }
  }

  lemma SelectionAfterInstallAt(c: Cache, tiers: nat, abi: Option<nat>, k: Slot, p: Pair, j: Slot)
    requires k.tier < tiers && CanonicalName(k.name) && StagedAbi(p, abi)
    ensures j in Selection(c[k := p], tiers, abi)
       <==> j in Projected(Selection(c, tiers, abi), k, EntryOf(k.tier, p, abi))
  {
    var es := Selection(c, tiers, abi);
    ChosenAtTarget(c, tiers, abi, k, p);
    if j.name != k.name {
      ChosenElsewhere(c, tiers, abi, k, p, j);
    } else if j != k {
      ChosenBeside(c, tiers, abi, k, p, j);
      if j in es && ShadowedBy(es, k) {
        var s :| s in es && s.name == k.name && s.tier < k.tier;
        SelectionNames(c, tiers, abi);
      }
    }
  }

  lemma LowestTier(c: Cache, tiers: nat, abi: Option<nat>, name: string, t: nat) returns (low: nat)
    requires Indexed(c, tiers, abi, Slot(t, name))
    ensures low <= t && Chosen(c, tiers, abi, Slot(low, name))
    decreases t
  {
    low := t;
    if u: nat :| u < t && Indexed(c, tiers, abi, Slot(u, name)) {
      low := LowestTier(c, tiers, abi, name, u);
    }
  }

  lemma ChosenElsewhere(c: Cache, tiers: nat, abi: Option<nat>, k: Slot, p: Pair, j: Slot)
    requires j.name != k.name
    ensures Chosen(c[k := p], tiers, abi, j) <==> Chosen(c, tiers, abi, j)
  {
    var d := c[k := p];
    assert Indexed(d, tiers, abi, j) <==> Indexed(c, tiers, abi, j);
    forall t: nat ensures Indexed(d, tiers, abi, Slot(t, j.name)) <==> Indexed(c, tiers, abi, Slot(t, j.name)) { }
  }

  /** A copy of the same basename in another tier survives only if it shadows `k`. */
  lemma ChosenBeside(c: Cache, tiers: nat, abi: Option<nat>, k: Slot, p: Pair, j: Slot)
    requires k.tier < tiers && CanonicalName(k.name) && StagedAbi(p, abi) && j != k && j.name == k.name
    ensures Chosen(c[k := p], tiers, abi, j) <==> Chosen(c, tiers, abi, j) && j.tier < k.tier
  {
    var d := c[k := p];
    assert Indexed(d, tiers, abi, Slot(k.tier, j.name));
    assert j.tier != k.tier;
    forall t: nat | t != k.tier
      ensures Indexed(d, tiers, abi, Slot(t, j.name)) <==> Indexed(c, tiers, abi, Slot(t, j.name)) { }
  }

  predicate AtMost(u: Usage, v: Usage) {
    u.candidates <= v.candidates && u.raw <= v.raw && u.links <= v.links && u.files <= v.files
  }

  /**
   The projection commutes with publication: for a runtime-valid staged pair it equals
   the inventory recomputed afterwards, in all four measures.
   */
  lemma ProjectionCommutes(c: Cache, tiers: nat, abi: Option<nat>, k: Slot, p: Pair)
    requires k.tier < tiers && CanonicalName(k.name) && RuntimeValid(p, abi)
    ensures UsageOf(Selection(c[k := p], tiers, abi))
         == UsageOf(Projected(Selection(c, tiers, abi), k, StagedEntry(k.tier, p.ranges.value.of.text)))
  {
    StagedEntryIsEntry(k.tier, p, abi);
    SelectionAfterInstall(c, tiers, abi, k, p);
  }

  /** With only the ABI preflight passing, the projection is still an upper bound. */
  lemma ProjectionBounds(c: Cache, tiers: nat, abi: Option<nat>, k: Slot, p: Pair)
    requires k.tier < tiers && CanonicalName(k.name) && StagedManifest(p) && StagedAbi(p, abi)
    ensures AtMost(UsageOf(Selection(c[k := p], tiers, abi)),
                   UsageOf(Projected(Selection(c, tiers, abi), k, StagedEntry(k.tier, p.ranges.value.of.text))))
  {
    var es := Selection(c, tiers, abi);
    var staged, actual := StagedEntry(k.tier, p.ranges.value.of.text), EntryOf(k.tier, p, abi);
    StagedEntryIsEntry(k.tier, p, abi);
    SelectionAfterInstall(c, tiers, abi, k, p);
    SelectionHonest(c, tiers, abi);
    if !ShadowedBy(es, k) {
      var rest := es - SameName(es, k.name);
      AddedUsage(rest, k, staged);
      AddedUsage(rest, k, actual);
    }
  }

  /** What the staged rows add is paid already: another basename counts the same pair. */
  ghost predicate AlreadyCounted(es: Entries, k: Slot, staged: Entry) {
    staged.identity.Some? && staged.identity.value in Identities(es - SameName(es, k.name))
  }

  /** An entry that costs nothing is counted like the staged one exactly when that one would add nothing. */
  lemma SameUsageExactly(rest: Entries, k: Slot, staged: Entry, actual: Entry)
    requires k !in rest && Honest(staged) && actual.count == 0 && actual.identity.None?
    ensures UsageOf(rest[k := actual]) == UsageOf(rest[k := staged]) <==>
            actual.raw == staged.raw && actual.links == staged.links && Extra(staged, Identities(rest)) == 0
  {
    AddedUsage(rest, k, staged);
    AddedUsage(rest, k, actual);
  }

  /** For a pair that passes the ABI preflight, exactly when the projection is the inventory recomputed afterwards. */
  lemma ProjectionExactly(c: Cache, tiers: nat, abi: Option<nat>, k: Slot, p: Pair)
    requires k.tier < tiers && CanonicalName(k.name) && StagedManifest(p) && StagedAbi(p, abi)
    ensures var es, staged := Selection(c, tiers, abi), StagedEntry(k.tier, p.ranges.value.of.text);
      UsageOf(Selection(c[k := p], tiers, abi)) == UsageOf(Projected(es, k, staged)) <==>
        RuntimeValid(p, abi) || ShadowedBy(es, k) || (!EmptyFile(p.dll.value) && AlreadyCounted(es, k, staged))
  {
    var es := Selection(c, tiers, abi);
    var staged, actual := StagedEntry(k.tier, p.ranges.value.of.text), EntryOf(k.tier, p, abi);
    StagedEntryIsEntry(k.tier, p, abi);
    SelectionAfterInstall(c, tiers, abi, k, p);
    if !ShadowedBy(es, k) && !RuntimeValid(p, abi) {
      SameUsageExactly(es - SameName(es, k.name), k, staged, actual);
    }
  }

  // ---- Pairs the runtime does not index ----------------------------------

  /** The first tier from `t` on that holds an indexed copy of the basename. */
  function FirstIndexed(c: Cache, tiers: nat, abi: Option<nat>, name: string, t: nat): (first: Option<nat>)
    ensures first.Some? ==> t <= first.value && Indexed(c, tiers, abi, Slot(first.value, name))
    ensures forall u: nat :: t <= u && (first.Some? ==> u < first.value) ==> !Indexed(c, tiers, abi, Slot(u, name))
    decreases tiers - t
  {
    if t >= tiers then None
    else if Indexed(c, tiers, abi, Slot(t, name)) then Some(t)
    else FirstIndexed(c, tiers, abi, name, t + 1)
  }

  /** The copy that `k` shadows and that takes its place. */
  function Successor(c: Cache, tiers: nat, abi: Option<nat>, k: Slot): Option<Slot> {
    var t := FirstIndexed(c, tiers, abi, k.name, k.tier + 1);
    if t.None? then None else Some(Slot(t.value, k.name))
  }

  /** The inventory once the chosen `k` no longer counts. */
  function Unshadowed(c: Cache, tiers: nat, abi: Option<nat>, k: Slot): Entries {
    var rest, next := Selection(c, tiers, abi) - {k}, Successor(c, tiers, abi, k);
    if next.None? || next.value !in c then rest else rest[next.value := EntryOf(next.value.tier, c[next.value], abi)]
  }

  lemma ChosenAfterRejection(c: Cache, tiers: nat, abi: Option<nat>, k: Slot, p: Pair, j: Slot)
    requires !Indexed(c[k := p], tiers, abi, k)
    ensures Chosen(c[k := p], tiers, abi, j) <==>
      j != k && (Chosen(c, tiers, abi, j) || (Chosen(c, tiers, abi, k) && Successor(c, tiers, abi, k) == Some(j)))
  {
    var d := c[k := p];
    forall i: Slot | i != k ensures Indexed(d, tiers, abi, i) <==> Indexed(c, tiers, abi, i) { }
    assert forall t: nat :: Slot(t, k.name) == k <==> t == k.tier;
    assert j == Slot(j.tier, j.name);
    forall t: nat ensures Indexed(d, tiers, abi, Slot(t, j.name)) <==> Slot(t, j.name) != k && Indexed(c, tiers, abi, Slot(t, j.name)) { }
    if j != k && j.name == k.name {
      if Chosen(d, tiers, abi, j) && !Chosen(c, tiers, abi, j) {
        assert Indexed(c, tiers, abi, k) && k.tier < j.tier;
        assert forall t: nat :: t < k.tier ==> !Indexed(d, tiers, abi, Slot(t, j.name));
        assert Chosen(c, tiers, abi, k);
      }
      if Chosen(c, tiers, abi, k) && Successor(c, tiers, abi, k) == Some(j) {
        assert forall t: nat :: t < j.tier ==> !Indexed(d, tiers, abi, Slot(t, j.name));
      }
    }
  }

  /**
   Publishing a pair that the runtime does not index takes the visible pair of a basename out of the
   inventory and brings back the copy it used to shadow, whatever that one costs; elsewhere it changes nothing.
   */
  lemma RejectedInstallUnshadows(c: Cache, tiers: nat, abi: Option<nat>, k: Slot, p: Pair)
    requires !Indexed(c[k := p], tiers, abi, k)
    ensures Selection(c[k := p], tiers, abi)
         == if Chosen(c, tiers, abi, k) then Unshadowed(c, tiers, abi, k) else Selection(c, tiers, abi)
  {
    var d := c[k := p];
    var after := if Chosen(c, tiers, abi, k) then Unshadowed(c, tiers, abi, k) else Selection(c, tiers, abi);
    forall j: Slot ensures j in Selection(d, tiers, abi) <==> j in after {
      ChosenAfterRejection(c, tiers, abi, k, p, j);
    }
    forall j: Slot | j in after ensures Selection(d, tiers, abi)[j] == after[j] {
      ChosenAfterRejection(c, tiers, abi, k, p, j);
    }
  }

  /** Nothing comes back, or what comes back fits into what `k` leaves. */
  ghost predicate ReturnFits(c: Cache, tiers: nat, abi: Option<nat>, k: Slot, cap: nat) {
    var es, next := Selection(c, tiers, abi), Successor(c, tiers, abi, k);
    next.Some? && next.value in c ==>
      Bounded(Plus(UsageOf(es - {k}), EntryOf(next.value.tier, c[next.value], abi), Identities(es - {k})), UsageOf(es), cap)
  }

  lemma WithoutIsLess(es: Entries, k: Slot)
    requires k in es && AllHonest(es)
    ensures AtMost(UsageOf(es - {k}), UsageOf(es))
  {
    AddedUsage(es - {k}, k, es[k]);
    assert (es - {k})[k := es[k]] == es;
  }

  /** What the inventory costs once `k` no longer counts. */
  lemma UnshadowedUsage(c: Cache, tiers: nat, abi: Option<nat>, k: Slot)
    requires Chosen(c, tiers, abi, k)
    ensures var es, next := Selection(c, tiers, abi), Successor(c, tiers, abi, k);
      UsageOf(Unshadowed(c, tiers, abi, k)) ==
        if next.None? || next.value !in c then UsageOf(es - {k})
        else Plus(UsageOf(es - {k}), EntryOf(next.value.tier, c[next.value], abi), Identities(es - {k}))
  {
    var es, next := Selection(c, tiers, abi), Successor(c, tiers, abi, k);
    if next.Some? && next.value in c {
      assert next.value !in es - {k} by { assert !Chosen(c, tiers, abi, next.value); }
      AddedUsage(es - {k}, next.value, EntryOf(next.value.tier, c[next.value], abi));
    }
  }

  lemma LessIsBounded(u: Usage, v: Usage, cap: nat)
    requires AtMost(u, v)
    ensures Bounded(u, v, cap)
  {
  }

  /** Exactly when a pair that the runtime does not index keeps every bound. */
  lemma RejectedInstallExactly(c: Cache, tiers: nat, abi: Option<nat>, k: Slot, p: Pair, cap: nat)
    requires !Indexed(c[k := p], tiers, abi, k)
    ensures Bounded(UsageOf(Selection(c[k := p], tiers, abi)), UsageOf(Selection(c, tiers, abi)), cap)
       <==> !Chosen(c, tiers, abi, k) || ReturnFits(c, tiers, abi, k, cap)
  {
    var es := Selection(c, tiers, abi);
    RejectedInstallUnshadows(c, tiers, abi, k, p);
    if Chosen(c, tiers, abi, k) {
      SelectionHonest(c, tiers, abi);
      WithoutIsLess(es, k);
      LessIsBounded(UsageOf(es - {k}), UsageOf(es), cap);
      UnshadowedUsage(c, tiers, abi, k);
    }
  }
}
