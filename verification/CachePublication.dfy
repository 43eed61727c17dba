/**
 publish_shard_pair as a whole: the capacity lock, namespace recovery, inventory,
 admission and the pair transaction; then what all of that guarantees over runs.
 */
module CachePublication {
  import opened Prelude
  import opened Manifest
  import opened ShardStore
  import opened PairPublication
  import opened CacheInventory

  // ---- The namespace behind the visible files ----------------------------

  ghost predicate AllSound(files: Files) {
    forall k: Slot :: Sound(files, k)
  }

  function SlotsOf(files: Files): set<Slot> {
    set p | p in files && p.Shard? :: p.slot
  }

  /** The cache an undisturbed recovery of every slot would leave. */
  ghost function CacheOf(files: Files): Cache
    requires AllSound(files)
  {
    map k | k in SlotsOf(files) && Settled(files, k).dll.Some? :: Settled(files, k)
  }

  lemma CacheMember(files: Files, k: Slot)
    requires AllSound(files)
    ensures k in CacheOf(files) <==> Settled(files, k).dll.Some?
  {
    if Settled(files, k).dll.Some? {
      if Shard(k, Journal) in files {
        assert Shard(k, Journal).slot in SlotsOf(files);
      } else {
        assert Shard(k, Dll).slot in SlotsOf(files);
      }
    }
  }

  lemma SlotFrame(k: Slot, j: Slot, a: Files, b: Files)
    requires SameElsewhere(k, a, b) && j != k && Sound(a, j)
    ensures Sound(b, j) && Settled(b, j) == Settled(a, j) && Visible(b, j) == Visible(a, j)
    ensures Shard(j, Journal) in b <==> Shard(j, Journal) in a
  {
    assert FileSha256(b, Shard(j, Dll)) == FileSha256(a, Shard(j, Dll));
    assert FileSha256(b, Shard(j, Ranges)) == FileSha256(a, Shard(j, Ranges));
    if Shard(j, Journal) in a {
      var t := a[Shard(j, Journal)].txn;
      assert FileSha256(b, t.backupDll) == FileSha256(a, t.backupDll);
      assert FileSha256(b, t.backupRanges) == FileSha256(a, t.backupRanges);
    }
  }

  lemma SettledFrame(k: Slot, j: Slot, a: Files, b: Files)
    requires OnlySlot(k, a, b) && j != k && Sound(a, j)
    ensures Sound(b, j) && Settled(b, j) == Settled(a, j)
  {
    assert forall kind: Kind :: FileSha256(b, Shard(j, kind)) == FileSha256(a, Shard(j, kind));
    if Shard(j, Journal) in a {
      var t := a[Shard(j, Journal)].txn;
      assert FileSha256(b, t.backupDll) == FileSha256(a, t.backupDll);
      assert FileSha256(b, t.backupRanges) == FileSha256(a, t.backupRanges);
    }
  }

  /** A stuttering step of one slot is invisible in the recovered cache. */
  lemma StutterKeepsCache(k: Slot, a: Files, b: Files)
    requires AllSound(a) && Stutter(k, a, b)
    ensures AllSound(b) && CacheOf(b) == CacheOf(a)
  {
    forall j: Slot ensures Sound(b, j) && Settled(b, j) == Settled(a, j) {
      if j != k { SlotFrame(k, j, a, b); }
    }
    forall j: Slot ensures j in CacheOf(b) <==> j in CacheOf(a) {
      CacheMember(a, j);
      CacheMember(b, j);
    }
  }

  /** A commit installs exactly the offered pair. */
  lemma CommitInstalls(k: Slot, offer: Pair, a: Files, b: Files)
    requires AllSound(a) && Commit(k, offer, a, b) && offer.dll.Some?
    ensures AllSound(b) && CacheOf(b) == CacheOf(a)[k := offer]
  {
    forall j: Slot | j != k ensures Sound(b, j) && Settled(b, j) == Settled(a, j) {
      SlotFrame(k, j, a, b);
    }
    forall j: Slot ensures j in CacheOf(b) <==> j in CacheOf(a)[k := offer] {
      CacheMember(a, j);
      CacheMember(b, j);
    }
  }

  /** What a reader sees is never a mixture: no DLL, or exactly the pair the slot stands for. */
  lemma NeverMixed(files: Files, k: Slot)
    requires Sound(files, k)
    ensures Visible(files, k).dll == None || Visible(files, k) == Settled(files, k)
  {
  }

  // ---- Traces ------------------------------------------------------------

  /** Every state since `from` is sound and stands for one of two caches. */
  ghost predicate Between(trace: seq<Files>, from: nat, c: Cache, d: Cache) {
    forall i :: from <= i < |trace| ==> AllSound(trace[i]) && (CacheOf(trace[i]) == c || CacheOf(trace[i]) == d)
  }

  lemma {:induction false} QuietTrace(k: Slot, trace: seq<Files>, from: nat, c: Cache, n: nat)
    requires 0 < from <= n <= |trace| && Steps(k, None, trace, from)
    requires AllSound(trace[from-1]) && CacheOf(trace[from-1]) == c
    ensures AllSound(trace[n-1]) && CacheOf(trace[n-1]) == c
  {
    if from < n {
      QuietTrace(k, trace, from, c, n - 1);
      StutterKeepsCache(k, trace[n-2], trace[n-1]);
    }
  }

  lemma {:induction false} OfferTrace(k: Slot, offer: Pair, trace: seq<Files>, from: nat, c: Cache, n: nat)
    requires 0 < from <= n <= |trace| && Steps(k, Some(offer), trace, from) && offer.dll.Some?
    requires AllSound(trace[from-1]) && (CacheOf(trace[from-1]) == c || CacheOf(trace[from-1]) == c[k := offer])
    ensures AllSound(trace[n-1]) && (CacheOf(trace[n-1]) == c || CacheOf(trace[n-1]) == c[k := offer])
  {
    if from < n {
      OfferTrace(k, offer, trace, from, c, n - 1);
      if Stutter(k, trace[n-2], trace[n-1]) {
        StutterKeepsCache(k, trace[n-2], trace[n-1]);
      } else {
        CommitInstalls(k, offer, trace[n-2], trace[n-1]);
        assert c[k := offer][k := offer] == c[k := offer];
      }
    }
  }

  lemma QuietSince(k: Slot, trace: seq<Files>, from: nat)
    requires 0 < from <= |trace| && Steps(k, None, trace, from) && AllSound(trace[from-1])
    ensures Between(trace, from, CacheOf(trace[from-1]), CacheOf(trace[from-1]))
  {
    forall i | from <= i < |trace| ensures AllSound(trace[i]) && CacheOf(trace[i]) == CacheOf(trace[from-1]) {
      QuietTrace(k, trace, from, CacheOf(trace[from-1]), i + 1);
    }
  }

  lemma OfferSince(k: Slot, offer: Pair, trace: seq<Files>, from: nat)
    requires 0 < from <= |trace| && Steps(k, Some(offer), trace, from) && AllSound(trace[from-1]) && offer.dll.Some?
    ensures Between(trace, from, CacheOf(trace[from-1]), CacheOf(trace[from-1])[k := offer])
  {
    var c := CacheOf(trace[from-1]);
    forall i | from <= i < |trace|
      ensures AllSound(trace[i]) && (CacheOf(trace[i]) == c || CacheOf(trace[i]) == c[k := offer])
    {
      OfferTrace(k, offer, trace, from, c, i + 1);
    }
  }

  lemma BetweenJoin(trace: seq<Files>, longer: seq<Files>, from: nat, c: Cache, d: Cache)
    requires from <= |trace| && trace <= longer && Between(trace, from, c, c) && Between(longer, |trace|, c, d)
    ensures Between(longer, from, c, d)
  {
    forall i | from <= i < |longer|
      ensures AllSound(longer[i]) && (CacheOf(longer[i]) == c || CacheOf(longer[i]) == d)
    {
      if i < |trace| { assert longer[i] == trace[i]; }
    }
  }

  // ---- Recovering the namespace ------------------------------------------

  /** Every step since `from` is one of a recovery of some slot. */
  ghost predicate Recoveries(trace: seq<Files>, from: nat) {
    forall i :: 0 < from <= i < |trace| ==> RecoversSome(trace[i-1], trace[i])
  }

  ghost predicate RecoversSome(a: Files, b: Files) { exists k :: Recovering(k, a, b) }

  lemma OneSlotRecovers(k: Slot, trace: seq<Files>, from: nat)
    requires Steps(k, None, trace, from)
    ensures Recoveries(trace, from)
  {
    forall i | 0 < from <= i < |trace| ensures RecoversSome(trace[i-1], trace[i]) {
      assert StepFor(k, None, trace[i-1], trace[i]);
    }
  }

  lemma RecoveriesJoin(trace: seq<Files>, longer: seq<Files>, from: nat)
    requires 0 < from <= |trace| && trace <= longer && Recoveries(trace, from) && Recoveries(longer, |trace|)
    ensures Recoveries(longer, from)
  {
    forall i | from <= i < |longer| ensures RecoversSome(longer[i-1], longer[i]) {
      if i < |trace| { assert longer[i-1] == trace[i-1] && longer[i] == trace[i]; }
    }
  }

  /** The journals recover_candidate_namespace looks for. */
  predicate Pending(files: Files, tiers: nat, k: Slot) {
    Shard(k, Journal) in files && k.tier < tiers && CanonicalName(k.name)
  }

  ghost predicate NonePending(files: Files, tiers: nat) { forall k: Slot :: !Pending(files, tiers, k) }

  /** Files of slots that are not looked at stay as they are. */
  ghost predicate OthersStay(tiers: nat, a: Files, b: Files) {
    forall p: Path :: p.Shard? && (p.slot.tier >= tiers || !CanonicalName(p.slot.name)) ==> FileSha256(b, p) == FileSha256(a, p)
  }

  lemma OthersStayStep(tiers: nat, a: Files, b: Files, c: Files, k: Slot)
    requires OthersStay(tiers, a, b) && OnlySlot(k, b, c) && k.tier < tiers && CanonicalName(k.name)
    ensures OthersStay(tiers, a, c)
  {
  }

  /** recover_candidate_namespace */
  method RecoverCandidateNamespace(disk: Disk, tiers: nat) returns (o: Outcome)
    requires disk.Valid() && AllSound(disk.files)
    modifies disk
    ensures disk.Valid() && old(disk.trace) <= disk.trace
    ensures Between(disk.trace, |old(disk.trace)|, CacheOf(old(disk.files)), CacheOf(old(disk.files)))
    ensures AllSound(disk.files) && CacheOf(disk.files) == CacheOf(old(disk.files))
    ensures forall p: Path :: p.Scratch? ==> FileSha256(disk.files, p) == FileSha256(old(disk.files), p)
    ensures forall j: Slot :: Settled(disk.files, j) == Settled(old(disk.files), j)
    ensures Recoveries(disk.trace, |old(disk.trace)|)
    ensures OthersStay(tiers, old(disk.files), disk.files)
    ensures o == Done ==> NonePending(disk.files, tiers)
    ensures o == Done || o == Raised(OsError) || o == Died
    ensures (forall n :: disk.fate(n) == Obeyed) ==> o == Done
  {
    ghost var from, c := |disk.trace|, CacheOf(disk.files);
    var todo := set p | p in disk.files && p.Shard? && p.kind == Journal && Pending(disk.files, tiers, p.slot) :: p.slot;
    o := Done;
    assert forall k: Slot :: Pending(disk.files, tiers, k) ==> Shard(k, Journal).slot in todo;
    while todo != {}
      invariant disk.Valid() && old(disk.trace) <= disk.trace && o == Done
      invariant Between(disk.trace, from, c, c)
      invariant Recoveries(disk.trace, from)
      invariant AllSound(disk.files) && CacheOf(disk.files) == c
      invariant forall p: Path :: p.Scratch? ==> FileSha256(disk.files, p) == FileSha256(old(disk.files), p)
      invariant forall k: Slot :: Pending(disk.files, tiers, k) ==> k in todo
      invariant OthersStay(tiers, old(disk.files), disk.files)
      invariant forall k :: k in todo ==> k.tier < tiers && CanonicalName(k.name)
      invariant forall j: Slot :: Settled(disk.files, j) == Settled(old(disk.files), j)
      decreases todo
    {
      var k :| k in todo;
      ghost var before, seen := disk.files, disk.trace;
      o := RecoverPairQuietly(disk, k);
      OneSlotRecovers(k, disk.trace, |seen|);
      RecoveriesJoin(seen, disk.trace, from);
      OthersStayStep(tiers, old(disk.files), before, disk.files, k);
      BetweenJoin(seen, disk.trace, from, c, c);
      if o != Done {
        return;
      }
      todo := todo - {k};
      forall j: Slot | Pending(disk.files, tiers, j) ensures j in todo {
        if j != k {
          assert FileSha256(disk.files, Shard(j, Journal)) == FileSha256(before, Shard(j, Journal));
        }
      }
    }
  }

  // ---- Publication -------------------------------------------------------

  /** Without pending journals the visible files are the recovered cache, as far as the runtime looks. */
  lemma SelectionOfVisible(files: Files, tiers: nat, abi: Option<nat>)
    requires AllSound(files) && NonePending(files, tiers)
    ensures Selection(VisibleCache(files), tiers, abi) == Selection(CacheOf(files), tiers, abi)
  {
    var v, c := VisibleCache(files), CacheOf(files);
    forall k: Slot | k.tier < tiers && CanonicalName(k.name)
      ensures (k in v <==> k in c) && (k in v ==> v[k] == c[k])
    {
      CacheMember(files, k);
      assert !Pending(files, tiers, k);
      if Shard(k, Dll) in files { assert Shard(k, Dll).slot in DllSlots(files); }
    }
    forall k: Slot ensures Indexed(v, tiers, abi, k) <==> Indexed(c, tiers, abi, k) { }
    forall k: Slot ensures Chosen(v, tiers, abi, k) <==> Chosen(c, tiers, abi, k) { }
  }

  /** The cache once `k` stands for `offer`, if there is a DLL to offer. */
  function Installed(c: Cache, k: Slot, offer: Pair): Cache {
    if offer.dll.Some? then c[k := offer] else c
  }

  ghost function UsageIn(c: Cache, tiers: nat, abi: Option<nat>): Usage {
    UsageOf(Selection(c, tiers, abi))
  }

  /** What the projection of `offer` at `k` says, starting from cache `c`. */
  ghost function ProjectedUsage(c: Cache, tiers: nat, abi: Option<nat>, k: Slot, manifest: string): Usage {
    var es := Selection(c, tiers, abi);
    if ShadowedBy(es, k) then UsageOf(es) else UsageOf(Projected(es, k, StagedEntry(k.tier, manifest)))
  }

  lemma StagedHonest(tier: nat, manifest: string)
    ensures Honest(StagedEntry(tier, manifest))
  {
  }

  /** The capacity half of publish_shard_pair: staged manifest, recovery, inventory, projection, verdict. */
  method ProjectPublication(disk: Disk, tiers: nat, k: Slot, stagedRanges: Path, abi: Option<nat>, cap: nat)
    returns (o: Outcome, verdict: Verdict)
    requires disk.Valid() && AllSound(disk.files) && Staged(stagedRanges)
    modifies disk
    ensures disk.Valid() && old(disk.trace) <= disk.trace
    ensures Between(disk.trace, |old(disk.trace)|, CacheOf(old(disk.files)), CacheOf(old(disk.files)))
    ensures Recoveries(disk.trace, |old(disk.trace)|) && (o == Done ==> NonePending(disk.files, tiers))
    ensures AllSound(disk.files) && CacheOf(disk.files) == CacheOf(old(disk.files))
    ensures forall p: Path :: p.Scratch? ==> FileSha256(disk.files, p) == FileSha256(old(disk.files), p)
    ensures o == Done || o == Raised(OsError) || o == Raised(StagedUnreadable) || o == Died
    ensures forall j: Slot :: Settled(disk.files, j) == Settled(old(disk.files), j)
    ensures o == Raised(StagedUnreadable) ==>
      stagedRanges in old(disk.files) && old(disk.files)[stagedRanges].Text? ==>
        !Ascii(old(disk.files)[stagedRanges].text) || Parse(old(disk.files)[stagedRanges].text, true).funcs == []
    ensures (forall n :: disk.fate(n) == Obeyed) ==> o == Done || o == Raised(StagedUnreadable)
    ensures o == Done ==>
      && stagedRanges in old(disk.files) && old(disk.files)[stagedRanges].Text?
      && var text := old(disk.files)[stagedRanges].text;
      && Ascii(text) && Parse(text, true).funcs != []
      && var c := CacheOf(old(disk.files));
         verdict == CapacityVerdict(UsageIn(c, tiers, abi), ProjectedUsage(c, tiers, abi, k, text), cap)
  {
    verdict := Fits;
    if stagedRanges !in disk.files || !disk.files[stagedRanges].Text? || !Ascii(disk.files[stagedRanges].text) {
      return Raised(StagedUnreadable), verdict;
    }
    var text := disk.files[stagedRanges].text;
    var parsed := ParseRuntimeShardManifest(text, true);
    if parsed.funcs == [] {
      return Raised(StagedUnreadable), verdict;
    }
    assert forall f :: f in parsed.funcs ==> Representable(f);
    var links := RuntimeManifestRangeLinkCount(parsed.funcs);
    o := RecoverCandidateNamespace(disk, tiers);
    if o != Done {
      return;
    }
    var usage, order, entries := CacheCandidateInventory(disk.files, tiers, abi);
    SelectionOfVisible(disk.files, tiers, abi);
    StagedHonest(k.tier, text);
    var staged := Entry(|parsed.funcs|, Identity(k.tier, text, parsed.pair, parsed.funcs), |parsed.funcs|, links);
    var after := ProjectedCacheCapacityUsage(usage, order, entries, k, staged);
    verdict := CapacityVerdict(usage, after, cap);
  }

  /** Admission is sound: a fitting verdict bounds the cache the commit would leave. */
  lemma AdmissionBounds(c: Cache, tiers: nat, abi: Option<nat>, k: Slot, offer: Pair, cap: nat)
    requires k.tier < tiers && CanonicalName(k.name) && StagedManifest(offer) && StagedAbi(offer, abi)
    requires CapacityVerdict(UsageIn(c, tiers, abi),
                             ProjectedUsage(c, tiers, abi, k, offer.ranges.value.of.text), cap) == Fits
    ensures Bounded(UsageIn(c[k := offer], tiers, abi), UsageIn(c, tiers, abi), cap)
  {
    ProjectionBounds(c, tiers, abi, k, offer);
    VerdictIsExact(UsageIn(c, tiers, abi), ProjectedUsage(c, tiers, abi, k, offer.ranges.value.of.text), cap);
  }

  /** The runtime indexes a counted slot with this pair in it. */
  predicate Counted(tiers: nat, abi: Option<nat>, k: Slot, offer: Pair) {
    k.tier < tiers && CanonicalName(k.name) && StagedAbi(offer, abi)
  }

  /**
   What an admission needs besides its verdict, which looks at the staged manifest alone: the pair is indexed
   at its slot, or takes no visible copy away there, or the copy that it brings back fits.
   */
  ghost predicate ReturnsNothingLarge(c: Cache, tiers: nat, abi: Option<nat>, k: Slot, offer: Pair, cap: nat) {
    Counted(tiers, abi, k, offer) || !Chosen(c, tiers, abi, k) || ReturnFits(c, tiers, abi, k, cap)
  }

  /** For every admitted pair, exactly when the commit keeps the bounds. */
  lemma AdmissionExactly(c: Cache, tiers: nat, abi: Option<nat>, k: Slot, offer: Pair, cap: nat)
    requires StagedManifest(offer) && offer.dll.Some?
    requires CapacityVerdict(UsageIn(c, tiers, abi),
                             ProjectedUsage(c, tiers, abi, k, offer.ranges.value.of.text), cap) == Fits
    ensures Bounded(UsageIn(c[k := offer], tiers, abi), UsageIn(c, tiers, abi), cap)
       <==> ReturnsNothingLarge(c, tiers, abi, k, offer, cap)
  {
    if Counted(tiers, abi, k, offer) {
      AdmissionBounds(c, tiers, abi, k, offer, cap);
    } else {
      RejectedInstallExactly(c, tiers, abi, k, offer, cap);
    }
  }

  /** A refusal is not spurious: for a runtime-valid pair the commit would have broken a bound. */
  lemma RefusalIsNecessary(c: Cache, tiers: nat, abi: Option<nat>, k: Slot, offer: Pair, cap: nat)
    requires k.tier < tiers && CanonicalName(k.name) && RuntimeValid(offer, abi)
    ensures CapacityVerdict(UsageIn(c, tiers, abi),
                            ProjectedUsage(c, tiers, abi, k, offer.ranges.value.of.text), cap) == Fits
       <==> Bounded(UsageIn(c[k := offer], tiers, abi), UsageIn(c, tiers, abi), cap)
  {
    ProjectionCommutes(c, tiers, abi, k, offer);
    VerdictIsExact(UsageIn(c, tiers, abi), ProjectedUsage(c, tiers, abi, k, offer.ranges.value.of.text), cap);
  }

  lemma PairFiles(files: Files, stagedDll: Path, stagedRanges: Path)
    requires stagedRanges in files && files[stagedRanges].Text? && Ascii(files[stagedRanges].text)
    requires Parse(files[stagedRanges].text, true).funcs != []
    ensures StagedManifest(Offer(files, stagedDll, stagedRanges))
  {
  }

  /** Every state since `from` is sound, and its recovered cache is within every bound. */
  ghost predicate TraceBounded(trace: seq<Files>, from: nat, start: Usage, tiers: nat, abi: Option<nat>, cap: nat) {
    forall i :: from <= i < |trace| ==>
      AllSound(trace[i]) && Bounded(UsageIn(CacheOf(trace[i]), tiers, abi), start, cap)
  }

  lemma BoundedBetween(trace: seq<Files>, from: nat, c: Cache, d: Cache, tiers: nat, abi: Option<nat>, cap: nat)
    requires Between(trace, from, c, d) && Bounded(UsageIn(d, tiers, abi), UsageIn(c, tiers, abi), cap)
    ensures TraceBounded(trace, from, UsageIn(c, tiers, abi), tiers, abi, cap)
  {
  }

  /** What a publication may commit: its offer, if it has been admitted and there is a DLL to offer. */
  function OfferIf(admitted: bool, offer: Pair): Option<Pair> {
    if admitted && offer.dll.Some? then Some(offer) else None
  }

  /** The transaction, for the whole namespace. */
  method CommitInNamespace(disk: Disk, k: Slot, stagedDll: Path, stagedRanges: Path, token: string) returns (o: Outcome)
    requires disk.Valid() && AllSound(disk.files) && Shard(k, Journal) !in disk.files
    requires Staged(stagedDll) && Staged(stagedRanges) && stagedDll != stagedRanges && IsToken(token)
    modifies disk
    ensures disk.Valid() && old(disk.trace) <= disk.trace && AllSound(disk.files)
    ensures Between(disk.trace, |old(disk.trace)|, CacheOf(old(disk.files)),
                    Installed(CacheOf(old(disk.files)), k, Offer(old(disk.files), stagedDll, stagedRanges)))
    ensures disk.Since(|old(disk.trace)|, k, OfferIf(true, Offer(old(disk.files), stagedDll, stagedRanges)))
    ensures o == Done ==> Visible(disk.files, k) == Offer(old(disk.files), stagedDll, stagedRanges)
    ensures (forall n :: disk.fate(n) == Obeyed) && stagedDll in old(disk.files) && stagedRanges in old(disk.files) ==> o == Done
    ensures o == Done || o == Raised(OsError) || o == Died || o == Raised(StagedMissing)
  {
    ghost var from, c, offer := |disk.trace|, CacheOf(disk.files), Offer(disk.files, stagedDll, stagedRanges);
    o := CommitStagedPair(disk, k, stagedDll, stagedRanges, token);
    if offer.dll.Some? {
      OfferSince(k, offer, disk.trace, from);
      OfferTrace(k, offer, disk.trace, from, c, |disk.trace|);
    }
  }

  /** publish_shard_pair under the pair lock: recover, keep a valid winner, refuse, or commit. */
  method PublishUnderPairLock(disk: Disk, k: Slot, stagedDll: Path, stagedRanges: Path, token: string,
                              preserveExisting: bool, abi: Option<nat>, admitted: bool)
    returns (o: Outcome, published: bool)
    requires disk.Valid() && AllSound(disk.files)
    requires Staged(stagedDll) && Staged(stagedRanges) && stagedDll != stagedRanges && IsToken(token)
    modifies disk
    ensures disk.Valid() && old(disk.trace) <= disk.trace && AllSound(disk.files)
    ensures Between(disk.trace, |old(disk.trace)|, CacheOf(old(disk.files)),
                    Installed(CacheOf(old(disk.files)), k, Offer(old(disk.files), stagedDll, stagedRanges)))
    // Under the pair lock every step is the recovery's or the transaction's.
    ensures disk.Since(|old(disk.trace)|, k, OfferIf(admitted, Offer(old(disk.files), stagedDll, stagedRanges)))
    ensures published ==> o == Done && admitted
    ensures published ==> Visible(disk.files, k) == Offer(old(disk.files), stagedDll, stagedRanges)
    ensures o == Done && !published ==> preserveExisting && Loadable(Visible(disk.files, k), abi)
    ensures o == Raised(CapacityExceeded) ==> CacheOf(disk.files) == CacheOf(old(disk.files))
    ensures !admitted ==> Between(disk.trace, |old(disk.trace)|, CacheOf(old(disk.files)), CacheOf(old(disk.files)))
    ensures (forall n :: disk.fate(n) == Obeyed) && stagedDll in old(disk.files) && stagedRanges in old(disk.files) ==>
      if preserveExisting && Loadable(Settled(old(disk.files), k), abi) then o == Done && !published
      else if admitted then published else o == Raised(CapacityExceeded)
    ensures o == Done || o == Raised(OsError) || o == Died || o == Raised(StagedMissing)
            || (!admitted && o == Raised(CapacityExceeded))
  {
    ghost var from, c, offer := |disk.trace|, CacheOf(disk.files), Offer(disk.files, stagedDll, stagedRanges);
    published := false;
    o := RecoverPairQuietly(disk, k);
    StepsWeaken(k, OfferIf(admitted, offer), disk.trace, from);
    if o != Done {
      return;
    }
    if preserveExisting && Loadable(Visible(disk.files, k), abi) {
      return;
    }
    if !admitted {
      return Raised(CapacityExceeded), false;
    }
    ghost var t2 := disk.trace;
    assert Offer(disk.files, stagedDll, stagedRanges) == offer;
    o := CommitInNamespace(disk, k, stagedDll, stagedRanges, token);
    published := o == Done;
    StepsJoin(k, OfferIf(admitted, offer), t2, disk.trace, from);
    BetweenJoin(t2, disk.trace, from, c, Installed(c, k, offer));
  }

  /** A pair worth publishing: nothing valid is to be kept, and every bound survives. */
  ghost predicate ShouldPublish(files: Files, tiers: nat, k: Slot, offer: Pair, preserveExisting: bool,
                                abi: Option<nat>, cap: Option<nat>)
    requires AllSound(files)
  {
    && !(preserveExisting && Loadable(Settled(files, k), abi))
    && (cap.Some? ==>
        Bounded(UsageIn(CacheOf(files)[k := offer], tiers, abi), UsageIn(CacheOf(files), tiers, abi), cap.value))
  }

  lemma ReflexivelyBounded(u: Usage, cap: nat)
    ensures Bounded(u, u, cap)
  {
  }

  /** What a publication may install costs no more than the limits allow. */
  lemma InstallationBounded(c: Cache, tiers: nat, abi: Option<nat>, cap: nat, k: Slot, offer: Pair)
    requires StagedManifest(offer) && ReturnsNothingLarge(c, tiers, abi, k, offer, cap)
    requires CapacityVerdict(UsageIn(c, tiers, abi),
                             ProjectedUsage(c, tiers, abi, k, offer.ranges.value.of.text), cap) == Fits
    ensures Bounded(UsageIn(Installed(c, k, offer), tiers, abi), UsageIn(c, tiers, abi), cap)
  {
    if offer.dll.Some? {
      AdmissionExactly(c, tiers, abi, k, offer, cap);
    } else {
      ReflexivelyBounded(UsageIn(c, tiers, abi), cap);
    }
  }

  /** What the cache may stand for after the verdict. */
  function Outcomes(c: Cache, k: Slot, offer: Pair, verdict: Verdict): Cache {
    if verdict == Fits then Installed(c, k, offer) else c
  }

  /** However it ends, a publication that brings back nothing large keeps every bound at every instant. */
  lemma PublicationWithinLimits(trace: seq<Files>, from: nat, c: Cache, tiers: nat, abi: Option<nat>, cap: nat,
                                k: Slot, offer: Pair, verdict: Verdict)
    requires Between(trace, from, c, Outcomes(c, k, offer, verdict))
    requires StagedManifest(offer) && ReturnsNothingLarge(c, tiers, abi, k, offer, cap)
    requires verdict == CapacityVerdict(UsageIn(c, tiers, abi),
                                        ProjectedUsage(c, tiers, abi, k, offer.ranges.value.of.text), cap)
    ensures TraceBounded(trace, from, UsageIn(c, tiers, abi), tiers, abi, cap)
  {
    var d := Outcomes(c, k, offer, verdict);
    assert Bounded(UsageIn(d, tiers, abi), UsageIn(c, tiers, abi), cap) by {
      if verdict == Fits {
        InstallationBounded(c, tiers, abi, cap, k, offer);
      } else {
        ReflexivelyBounded(UsageIn(c, tiers, abi), cap);
      }
    }
    BoundedBetween(trace, from, c, d, tiers, abi, cap);
  }

  /** The publisher has read a namespace without journals and been admitted. */
  ghost predicate AdmittedAt(files: Files, tiers: nat, abi: Option<nat>, cap: nat, k: Slot, offer: Pair) {
    && NonePending(files, tiers) && StagedManifest(offer) && offer.dll.Some?
    && var c := VisibleCache(files);
       CapacityVerdict(UsageIn(c, tiers, abi), ProjectedUsage(c, tiers, abi, k, offer.ranges.value.of.text), cap) == Fits
  }

  /** Recoveries up to `m`, and from there on more recovery steps or, once admitted, the transaction. */
  ghost predicate Phases(trace: seq<Files>, from: nat, m: nat, tiers: nat, abi: Option<nat>, cap: nat, k: Slot, offer: Pair) {
    && 0 < from <= m <= |trace| && Recoveries(trace[..m], from)
    && (Recoveries(trace, m) || (AdmittedAt(trace[m-1], tiers, abi, cap, k, offer) && Steps(k, Some(offer), trace, m)))
  }

  ghost predicate IsPublication(trace: seq<Files>, from: nat, tiers: nat, abi: Option<nat>, cap: nat, k: Slot, offer: Pair) {
    exists m :: Phases(trace, from, m, tiers, abi, cap, k, offer)
  }

  lemma AdmittedOnDisk(files: Files, tiers: nat, abi: Option<nat>, cap: nat, k: Slot, offer: Pair)
    requires AllSound(files) && NonePending(files, tiers) && StagedManifest(offer) && offer.dll.Some?
    requires var c := CacheOf(files);
      CapacityVerdict(UsageIn(c, tiers, abi), ProjectedUsage(c, tiers, abi, k, offer.ranges.value.of.text), cap) == Fits
    ensures AdmittedAt(files, tiers, abi, cap, k, offer)
  {
    SelectionOfVisible(files, tiers, abi);
  }

  lemma PublicationPhases(seen: seq<Files>, trace: seq<Files>, from: nat, tiers: nat, abi: Option<nat>, cap: nat,
                          k: Slot, offer: Pair, admitted: bool)
    requires 0 < from <= |seen| && seen <= trace && Recoveries(seen, from)
    requires admitted && offer.dll.Some? ==> AdmittedAt(seen[|seen|-1], tiers, abi, cap, k, offer)
    requires Steps(k, OfferIf(admitted, offer), trace, |seen|)
    ensures IsPublication(trace, from, tiers, abi, cap, k, offer)
  {
    assert trace[..|seen|] == seen;
    if !(admitted && offer.dll.Some?) { OneSlotRecovers(k, trace, |seen|); }
    assert Phases(trace, from, |seen|, tiers, abi, cap, k, offer);
  }

  /** A publisher that never gets to its transaction only recovers. */
  lemma OnlyRecovers(trace: seq<Files>, from: nat, tiers: nat, abi: Option<nat>, cap: nat, k: Slot, offer: Pair)
    requires 0 < from <= |trace| && Recoveries(trace, from)
    ensures IsPublication(trace, from, tiers, abi, cap, k, offer)
  {
    assert trace[..|trace|] == trace;
    assert Phases(trace, from, |trace|, tiers, abi, cap, k, offer);
  }

  lemma VerdictDecides(files: Files, tiers: nat, k: Slot, offer: Pair, preserveExisting: bool, abi: Option<nat>, cap: nat,
                       verdict: Verdict)
    requires AllSound(files) && k.tier < tiers && CanonicalName(k.name) && RuntimeValid(offer, abi)
    requires var c := CacheOf(files);
      verdict == CapacityVerdict(UsageIn(c, tiers, abi), ProjectedUsage(c, tiers, abi, k, offer.ranges.value.of.text), cap)
    ensures ShouldPublish(files, tiers, k, offer, preserveExisting, abi, Some(cap)) <==>
            !(preserveExisting && Loadable(Settled(files, k), abi)) && verdict == Fits
  {
    RefusalIsNecessary(CacheOf(files), tiers, abi, k, offer, cap);
  }

  /** All that a publication's verdict and trace say about it. */
  lemma Concludes(trace: seq<Files>, seen: seq<Files>, from: nat, tiers: nat, abi: Option<nat>, cap: nat, k: Slot, offer: Pair,
                  c: Cache, verdict: Verdict)
    requires 0 < from <= |seen| && seen <= trace && Recoveries(seen, from)
    requires AllSound(seen[|seen|-1]) && CacheOf(seen[|seen|-1]) == c && NonePending(seen[|seen|-1], tiers)
    requires Between(seen, from, c, c) && Between(trace, |seen|, c, Outcomes(c, k, offer, verdict))
    requires Steps(k, OfferIf(verdict == Fits, offer), trace, |seen|) && StagedManifest(offer)
    requires verdict == CapacityVerdict(UsageIn(c, tiers, abi), ProjectedUsage(c, tiers, abi, k, offer.ranges.value.of.text), cap)
    ensures IsPublication(trace, from, tiers, abi, cap, k, offer)
    ensures Between(trace, from, c, Installed(c, k, offer))
    ensures ReturnsNothingLarge(c, tiers, abi, k, offer, cap) ==> TraceBounded(trace, from, UsageIn(c, tiers, abi), tiers, abi, cap)
  {
    if verdict == Fits && offer.dll.Some? { AdmittedOnDisk(seen[|seen|-1], tiers, abi, cap, k, offer); }
    PublicationPhases(seen, trace, from, tiers, abi, cap, k, offer, verdict == Fits);
    BetweenJoin(seen, trace, from, c, Outcomes(c, k, offer, verdict));
    if ReturnsNothingLarge(c, tiers, abi, k, offer, cap) {
      PublicationWithinLimits(trace, from, c, tiers, abi, cap, k, offer, verdict);
    }
  }

  /** The rest of a capacity-checked publication, once its verdict is known. */
  method PublishJudged(disk: Disk, tiers: nat, k: Slot, stagedDll: Path, stagedRanges: Path, token: string,
                       preserveExisting: bool, abi: Option<nat>, cap: nat, verdict: Verdict, ghost from: nat, ghost offer: Pair)
    returns (o: Outcome, published: bool)
    requires disk.Valid() && AllSound(disk.files) && NonePending(disk.files, tiers)
    requires Staged(stagedDll) && Staged(stagedRanges) && stagedDll != stagedRanges && IsToken(token)
    requires offer == Offer(disk.files, stagedDll, stagedRanges) && StagedManifest(offer)
    requires 0 < from <= |disk.trace| && Recoveries(disk.trace, from)
    requires Between(disk.trace, from, CacheOf(disk.files), CacheOf(disk.files))
    requires var c := CacheOf(disk.files);
      verdict == CapacityVerdict(UsageIn(c, tiers, abi), ProjectedUsage(c, tiers, abi, k, offer.ranges.value.of.text), cap)
    modifies disk
    ensures disk.Valid() && old(disk.trace) <= disk.trace && AllSound(disk.files)
    ensures Between(disk.trace, from, CacheOf(old(disk.files)), Installed(CacheOf(old(disk.files)), k, offer))
    ensures IsPublication(disk.trace, from, tiers, abi, cap, k, offer)
    ensures published ==> o == Done && Visible(disk.files, k) == offer
    ensures o == Done && !published ==> preserveExisting && Loadable(Visible(disk.files, k), abi)
    ensures ReturnsNothingLarge(CacheOf(old(disk.files)), tiers, abi, k, offer, cap) ==>
      TraceBounded(disk.trace, from, UsageIn(CacheOf(old(disk.files)), tiers, abi), tiers, abi, cap)
    ensures (forall n :: disk.fate(n) == Obeyed) && k.tier < tiers && CanonicalName(k.name) && RuntimeValid(offer, abi) ==>
      (published <==> !(preserveExisting && Loadable(Settled(old(disk.files), k), abi)) && verdict == Fits)
    ensures o in {Done, Raised(OsError), Died, Raised(StagedMissing), Raised(CapacityExceeded)}
    ensures o == Raised(CapacityExceeded) ==> CacheOf(disk.files) == CacheOf(old(disk.files))
  {
    ghost var seen, c := disk.trace, CacheOf(disk.files);
    assert AllSound(seen[|seen|-1]) && CacheOf(seen[|seen|-1]) == c && NonePending(seen[|seen|-1], tiers);
    o, published := PublishUnderPairLock(disk, k, stagedDll, stagedRanges, token, preserveExisting, abi, verdict == Fits);
    assert Between(disk.trace, |seen|, c, Outcomes(c, k, offer, verdict));
    assert Steps(k, OfferIf(verdict == Fits, offer), disk.trace, |seen|);
    Concludes(disk.trace, seen, from, tiers, abi, cap, k, offer, c, verdict);
  }

  /** publish_shard_pair with a candidate cap: the whole of it runs under the capacity lock. */
  method PublishWithinCapacity(disk: Disk, tiers: nat, k: Slot, stagedDll: Path, stagedRanges: Path, token: string,
                               preserveExisting: bool, abi: Option<nat>, cap: nat)
    returns (o: Outcome, published: bool)
    requires disk.Valid() && AllSound(disk.files)
    requires Staged(stagedDll) && Staged(stagedRanges) && stagedDll != stagedRanges && IsToken(token)
    modifies disk
    ensures disk.Valid() && old(disk.trace) <= disk.trace && AllSound(disk.files)
    ensures Between(disk.trace, |old(disk.trace)|, CacheOf(old(disk.files)),
                    Installed(CacheOf(old(disk.files)), k, Offer(old(disk.files), stagedDll, stagedRanges)))
    ensures IsPublication(disk.trace, |old(disk.trace)|, tiers, abi, cap, k, Offer(old(disk.files), stagedDll, stagedRanges))
    ensures published ==> o == Done && Visible(disk.files, k) == Offer(old(disk.files), stagedDll, stagedRanges)
    ensures o == Done && !published ==> preserveExisting && Loadable(Visible(disk.files, k), abi)
    ensures ReturnsNothingLarge(CacheOf(old(disk.files)), tiers, abi, k, Offer(old(disk.files), stagedDll, stagedRanges), cap) ==>
      TraceBounded(disk.trace, |old(disk.trace)|, UsageIn(CacheOf(old(disk.files)), tiers, abi), tiers, abi, cap)
    ensures (forall n :: disk.fate(n) == Obeyed) && k.tier < tiers && CanonicalName(k.name)
            && RuntimeValid(Offer(old(disk.files), stagedDll, stagedRanges), abi) ==>
      (published <==> ShouldPublish(old(disk.files), tiers, k, Offer(old(disk.files), stagedDll, stagedRanges),
                                    preserveExisting, abi, Some(cap)))
    ensures o in {Done, Raised(OsError), Died, Raised(StagedMissing), Raised(StagedUnreadable), Raised(CapacityExceeded)}
    ensures o == Raised(CapacityExceeded) ==> CacheOf(disk.files) == CacheOf(old(disk.files))
  {
    ghost var from, c, offer := |disk.trace|, CacheOf(disk.files), Offer(disk.files, stagedDll, stagedRanges);
    var verdict;
    o, verdict := ProjectPublication(disk, tiers, k, stagedRanges, abi, cap);
    published := false;
    if o != Done {
      BoundedBetween(disk.trace, from, c, c, tiers, abi, cap);
      OnlyRecovers(disk.trace, from, tiers, abi, cap, k, offer);
      return;
    }
    PairFiles(old(disk.files), stagedDll, stagedRanges);
    assert Offer(disk.files, stagedDll, stagedRanges) == offer;
    o, published := PublishJudged(disk, tiers, k, stagedDll, stagedRanges, token, preserveExisting, abi, cap, verdict, from, offer);
    if k.tier < tiers && CanonicalName(k.name) && RuntimeValid(offer, abi) {
      VerdictDecides(old(disk.files), tiers, k, offer, preserveExisting, abi, cap, verdict);
    }
  }

  /** publish_shard_pair */
  method PublishShardPair(disk: Disk, tiers: nat, k: Slot, stagedDll: Path, stagedRanges: Path, token: string,
                          preserveExisting: bool, abi: Option<nat>, cap: Option<nat>)
    returns (o: Outcome, published: bool)
    requires disk.Valid() && AllSound(disk.files)
    requires Staged(stagedDll) && Staged(stagedRanges) && stagedDll != stagedRanges && IsToken(token)
    modifies disk
    ensures disk.Valid() && old(disk.trace) <= disk.trace && AllSound(disk.files)
    // At every instant the namespace stands for the old cache or for the old cache with the offer.
    ensures Between(disk.trace, |old(disk.trace)|, CacheOf(old(disk.files)),
                    Installed(CacheOf(old(disk.files)), k, Offer(old(disk.files), stagedDll, stagedRanges)))
    ensures published ==> o == Done && Visible(disk.files, k) == Offer(old(disk.files), stagedDll, stagedRanges)
    ensures o == Done && !published ==> preserveExisting && Loadable(Visible(disk.files, k), abi)
    // A capacity-checked publication that brings back nothing large keeps every bound, crash or not.
    ensures cap.Some? && ReturnsNothingLarge(CacheOf(old(disk.files)), tiers, abi, k,
                                             Offer(old(disk.files), stagedDll, stagedRanges), cap.value) ==>
      TraceBounded(disk.trace, |old(disk.trace)|, UsageIn(CacheOf(old(disk.files)), tiers, abi), tiers, abi, cap.value)
    // Undisturbed, a runtime-valid offer is published exactly when it should be.
    ensures (forall n :: disk.fate(n) == Obeyed) && k.tier < tiers && CanonicalName(k.name)
            && RuntimeValid(Offer(old(disk.files), stagedDll, stagedRanges), abi) ==>
      (published <==> ShouldPublish(old(disk.files), tiers, k, Offer(old(disk.files), stagedDll, stagedRanges),
                                    preserveExisting, abi, cap))
    ensures o in {Done, Raised(OsError), Died, Raised(StagedMissing), Raised(StagedUnreadable), Raised(CapacityExceeded)}
    ensures cap.None? ==> o != Raised(StagedUnreadable) && o != Raised(CapacityExceeded)
    ensures o == Raised(CapacityExceeded) ==> CacheOf(disk.files) == CacheOf(old(disk.files))
  {
    if cap.Some? {
      o, published := PublishWithinCapacity(disk, tiers, k, stagedDll, stagedRanges, token, preserveExisting, abi, cap.value);
    } else {
      o, published := PublishUnderPairLock(disk, k, stagedDll, stagedRanges, token, preserveExisting, abi, true);
    }
  }

  /** `_recover_shard_pair_locked` seen from the namespace. */
  method RecoverPairQuietly(disk: Disk, k: Slot) returns (o: Outcome)
    requires disk.Valid() && AllSound(disk.files)
    modifies disk
    ensures disk.Valid() && old(disk.trace) <= disk.trace
    ensures Between(disk.trace, |old(disk.trace)|, CacheOf(old(disk.files)), CacheOf(old(disk.files)))
    ensures disk.Since(|old(disk.trace)|, k, None)
    ensures AllSound(disk.files) && CacheOf(disk.files) == CacheOf(old(disk.files))
    ensures forall j: Slot :: Settled(disk.files, j) == Settled(old(disk.files), j)
    ensures forall p: Path :: p.Scratch? ==> FileSha256(disk.files, p) == FileSha256(old(disk.files), p)
    ensures o == Done ==> Shard(k, Journal) !in disk.files && Visible(disk.files, k) == Settled(old(disk.files), k)
    ensures o == Done || o == Raised(OsError) || o == Died
    ensures (forall n :: disk.fate(n) == Obeyed) ==> o == Done
    ensures OnlySlot(k, old(disk.files), disk.files)
  {
    ghost var seen, c := disk.trace, CacheOf(disk.files);
    assert Sound(disk.files, k);
    o := RecoverShardPairLocked(disk, k);
    QuietSince(k, disk.trace, |seen|);
    QuietTrace(k, disk.trace, |seen|, c, |disk.trace|);
    forall j: Slot ensures Settled(disk.files, j) == Settled(old(disk.files), j) {
      if j != k { SettledFrame(k, j, old(disk.files), disk.files); }
    }
  }
}
