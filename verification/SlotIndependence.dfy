/**
 A process that works on one slot reads nothing else: whatever the others make of the rest of the directory between its
 mutations, it does to its slot and to its staged files what it would do alone.
 */
module SlotIndependence {
  import opened Prelude
  import opened ShardStore
  import opened PairPublication

  type Part = Path -> bool

  /** Both directories have the same files in the part. */
  ghost predicate Agree(part: Part, a: Files, b: Files) {
    forall p: Path :: part(p) ==> FileSha256(a, p) == FileSha256(b, p)
  }

  /** The part holds every file of the slot. */
  ghost predicate Covers(part: Part, k: Slot) { forall p: Path :: p.Shard? && p.slot == k ==> part(p) }

  /** The others keep out of the part. */
  ghost predicate Keeps(part: Part, w: Setting) { forall p: Path :: part(p) ==> w.mine(p) }

  /** Two settings that decide alike, whatever the others do in them. */
  ghost predicate Deciding(part: Part, w: Setting, v: Setting) {
    w.fate == v.fate && w.glob == v.glob && Keeps(part, w) && Keeps(part, v)
  }

  /** Two processes that have left the same in the part, mutation by mutation. */
  ghost predicate Alike(part: Part, m: Proc, n: Proc) {
    && m.clock == n.clock && Agree(part, m.files, n.files) && |m.trace| == |n.trace|
    && forall i :: 0 <= i < |m.trace| ==> Agree(part, m.trace[i], n.trace[i])
  }

  ghost predicate Same(part: Part, r: Result, s: Result) { r.outcome == s.outcome && Alike(part, r.proc, s.proc) }

  lemma AroundAgrees(part: Part, w: Setting, m: Proc)
    requires Keeps(part, w)
    ensures Agree(part, Around(w, m), m.files)
  {
  }

  lemma MutateSame(part: Part, w: Setting, v: Setting, m: Proc, n: Proc, f: Files, g: Files)
    requires Deciding(part, w, v) && Alike(part, m, n) && Agree(part, f, g)
    ensures Same(part, Mutate(w, m, f), Mutate(v, n, g))
  {
    AroundAgrees(part, w, m);
    AroundAgrees(part, v, n);
  }

  lemma UnlinkedSame(part: Part, w: Setting, v: Setting, m: Proc, n: Proc, p: Path)
    requires Deciding(part, w, v) && Alike(part, m, n)
    ensures Same(part, Unlinked(w, m, p), Unlinked(v, n, p))
  {
    AroundAgrees(part, w, m);
    AroundAgrees(part, v, n);
    assert Agree(part, Around(w, m) - {p}, Around(v, n) - {p});
    MutateSame(part, w, v, m, n, Around(w, m) - {p}, Around(v, n) - {p});
  }

  lemma WrittenSame(part: Part, w: Setting, v: Setting, m: Proc, n: Proc, p: Path, c: Content)
    requires Deciding(part, w, v) && Alike(part, m, n)
    ensures Same(part, Written(w, m, p, c), Written(v, n, p, c))
  {
    AroundAgrees(part, w, m);
    AroundAgrees(part, v, n);
    assert Agree(part, Around(w, m)[p := c], Around(v, n)[p := c]);
    MutateSame(part, w, v, m, n, Around(w, m)[p := c], Around(v, n)[p := c]);
  }

  function Moved(f: Files, src: Path, dst: Path): Files { if src in f then (f - {src})[dst := f[src]] else f }

  lemma MovedAgrees(part: Part, f: Files, g: Files, src: Path, dst: Path)
    requires Agree(part, f, g) && part(src)
    ensures Agree(part, Moved(f, src, dst), Moved(g, src, dst)) && (src in f <==> src in g)
  {
    assert FileSha256(f, src) == FileSha256(g, src);
    forall p: Path | part(p) ensures FileSha256(Moved(f, src, dst), p) == FileSha256(Moved(g, src, dst), p) {
      assert FileSha256(f, p) == FileSha256(g, p);
    }
  }

  lemma ReplacedSame(part: Part, w: Setting, v: Setting, m: Proc, n: Proc, src: Path, dst: Path)
    requires Deciding(part, w, v) && Alike(part, m, n) && part(src)
    ensures Same(part, Replaced(w, m, src, dst), Replaced(v, n, src, dst))
  {
    AroundAgrees(part, w, m);
    AroundAgrees(part, v, n);
    MovedAgrees(part, Around(w, m), Around(v, n), src, dst);
    MutateSame(part, w, v, m, n, Moved(Around(w, m), src, dst), Moved(Around(v, n), src, dst));
  }

  // ---- Recovery ----------------------------------------------------------------

  lemma {:induction false} UnlinkedAllSame(part: Part, w: Setting, v: Setting, m: Proc, n: Proc, list: seq<Path>)
    requires Deciding(part, w, v) && Alike(part, m, n)
    ensures Same(part, UnlinkedAll(w, m, list), UnlinkedAll(v, n, list))
    decreases |list|
  {
    if list != [] {
      UnlinkedSame(part, w, v, m, n, list[0]);
      var r, s := BestEffort(Unlinked(w, m, list[0])), BestEffort(Unlinked(v, n, list[0]));
      if r.outcome != Died { UnlinkedAllSame(part, w, v, r.proc, s.proc, list[1..]); }
    }
  }

  lemma DebrisSame(part: Part, a: Files, b: Files, k: Slot)
    requires Covers(part, k) && Agree(part, a, b)
    ensures Debris(a, k) == Debris(b, k)
  {
    forall p: Path ensures p in Debris(a, k) <==> p in Debris(b, k) {
      if IsDebris(k, p) { assert FileSha256(a, p) == FileSha256(b, p); }
    }
  }

  lemma PutAwaySame(part: Part, w: Setting, v: Setting, m: Proc, n: Proc, p: Path)
    requires Deciding(part, w, v) && Alike(part, m, n) && part(p)
    ensures Same(part, PutAway(w, m, p), PutAway(v, n, p))
  {
    assert FileSha256(m.files, p) == FileSha256(n.files, p);
    UnlinkedSame(part, w, v, m, n, p);
  }

  lemma HalfRestoredSame(part: Part, w: Setting, v: Setting, m: Proc, n: Proc, h: Half)
    requires Deciding(part, w, v) && Alike(part, m, n) && part(h.path) && part(h.backup)
    ensures Same(part, HalfRestored(w, m, h), HalfRestored(v, n, h))
  {
    assert FileSha256(m.files, h.path) == FileSha256(n.files, h.path);
    assert FileSha256(m.files, h.backup) == FileSha256(n.files, h.backup);
    PutAwaySame(part, w, v, m, n, h.path);
    var r, s := PutAway(w, m, h.path), PutAway(v, n, h.path);
    ReplacedSame(part, w, v, r.proc, s.proc, h.backup, h.path);
  }

  lemma RetiredSame(part: Part, w: Setting, v: Setting, m: Proc, n: Proc, k: Slot, backupDll: Path, backupRanges: Path)
    requires Deciding(part, w, v) && Alike(part, m, n)
    ensures Same(part, Retired(w, m, k, backupDll, backupRanges), Retired(v, n, k, backupDll, backupRanges))
  {
    UnlinkedSame(part, w, v, m, n, Shard(k, Journal));
    var r, s := Unlinked(w, m, Shard(k, Journal)), Unlinked(v, n, Shard(k, Journal));
    UnlinkedSame(part, w, v, r.proc, s.proc, backupDll);
    var x, y := BestEffort(Unlinked(w, r.proc, backupDll)), BestEffort(Unlinked(v, s.proc, backupDll));
    UnlinkedSame(part, w, v, x.proc, y.proc, backupRanges);
  }

  lemma RolledBackSame(part: Part, w: Setting, v: Setting, m: Proc, n: Proc, k: Slot, t: PairTxn)
    requires Deciding(part, w, v) && Alike(part, m, n) && Covers(part, k) && Owned(k, t)
    ensures Same(part, RolledBack(w, m, k, t), RolledBack(v, n, k, t))
  {
    HalfRestoredSame(part, w, v, m, n, RangesHalf(k, t));
    var r, s := HalfRestored(w, m, RangesHalf(k, t)), HalfRestored(v, n, RangesHalf(k, t));
    HalfRestoredSame(part, w, v, r.proc, s.proc, DllHalf(k, t));
    var x, y := HalfRestored(w, r.proc, DllHalf(k, t)), HalfRestored(v, s.proc, DllHalf(k, t));
    RetiredSame(part, w, v, x.proc, y.proc, k, t.backupDll, t.backupRanges);
  }

  /** A recovery does to its slot what it would do alone. */
  lemma RecoveryIsItsOwn(part: Part, w: Setting, v: Setting, m: Proc, n: Proc, k: Slot)
    requires Deciding(part, w, v) && Alike(part, m, n) && Covers(part, k)
    ensures Same(part, Recovered(w, m, k), Recovered(v, n, k))
  {
    assert FileSha256(m.files, Shard(k, Journal)) == FileSha256(n.files, Shard(k, Journal));
    assert Visible(m.files, k) == Visible(n.files, k);
    if Shard(k, Journal) !in m.files {
      DebrisSame(part, m.files, n.files, k);
      UnlinkedAllSame(part, w, v, m, n, w.glob(m.clock, Debris(m.files, k)));
    } else if m.files[Shard(k, Journal)].Record? {
      var t := m.files[Shard(k, Journal)].txn;
      if Owned(k, t) {
        RetiredSame(part, w, v, m, n, k, t.backupDll, t.backupRanges);
        RolledBackSame(part, w, v, m, n, k, t);
      }
    }
  }

  // ---- Publication ---------------------------------------------------------------

  lemma MovedAsideSame(part: Part, w: Setting, v: Setting, m: Proc, n: Proc, expected: Option<Digest>, path: Path, backup: Path)
    requires Deciding(part, w, v) && Alike(part, m, n) && part(path)
    ensures Same(part, MovedAside(w, m, expected, path, backup), MovedAside(v, n, expected, path, backup))
  {
    ReplacedSame(part, w, v, m, n, path, backup);
  }

  lemma HiddenOldSame(part: Part, w: Setting, v: Setting, m: Proc, n: Proc, k: Slot, t: PairTxn)
    requires Deciding(part, w, v) && Alike(part, m, n) && Covers(part, k)
    ensures Same(part, HiddenOld(w, m, k, t), HiddenOld(v, n, k, t))
  {
    MovedAsideSame(part, w, v, m, n, t.oldDll, Shard(k, Dll), t.backupDll);
    var r, s := MovedAside(w, m, t.oldDll, Shard(k, Dll), t.backupDll), MovedAside(v, n, t.oldDll, Shard(k, Dll), t.backupDll);
    MovedAsideSame(part, w, v, r.proc, s.proc, t.oldRanges, Shard(k, Ranges), t.backupRanges);
  }

  lemma InstalledNewSame(part: Part, w: Setting, v: Setting, m: Proc, n: Proc, k: Slot, stagedDll: Path, stagedRanges: Path)
    requires Deciding(part, w, v) && Alike(part, m, n) && part(stagedDll) && part(stagedRanges)
    ensures Same(part, InstalledNew(w, m, k, stagedDll, stagedRanges), InstalledNew(v, n, k, stagedDll, stagedRanges))
  {
    ReplacedSame(part, w, v, m, n, stagedRanges, Shard(k, Ranges));
    var r, s := Replaced(w, m, stagedRanges, Shard(k, Ranges)), Replaced(v, n, stagedRanges, Shard(k, Ranges));
    ReplacedSame(part, w, v, r.proc, s.proc, stagedDll, Shard(k, Dll));
  }

  lemma SwappedSame(part: Part, w: Setting, v: Setting, m: Proc, n: Proc, k: Slot, t: PairTxn, stagedDll: Path, stagedRanges: Path)
    requires Deciding(part, w, v) && Alike(part, m, n) && Covers(part, k) && part(stagedDll) && part(stagedRanges)
    ensures Same(part, Swapped(w, m, k, t, stagedDll, stagedRanges), Swapped(v, n, k, t, stagedDll, stagedRanges))
  {
    HiddenOldSame(part, w, v, m, n, k, t);
    InstalledNewSame(part, w, v, HiddenOld(w, m, k, t).proc, HiddenOld(v, n, k, t).proc, k, stagedDll, stagedRanges);
  }

  lemma ConcludedSame(part: Part, w: Setting, v: Setting, r: Result, s: Result, k: Slot)
    requires Deciding(part, w, v) && Same(part, r, s) && Covers(part, k)
    ensures Same(part, Concluded(w, r, k), Concluded(v, s, k))
  {
    RecoveryIsItsOwn(part, w, v, r.proc, s.proc, k);
    RecoveryIsItsOwn(part, w, v, Recovered(w, r.proc, k).proc, Recovered(v, s.proc, k).proc, k);
  }

  lemma TxnSame(part: Part, a: Files, b: Files, k: Slot, stagedDll: Path, stagedRanges: Path, token: string)
    requires Agree(part, a, b) && Covers(part, k) && part(stagedDll) && part(stagedRanges)
    ensures TxnOf(a, k, stagedDll, stagedRanges, token) == TxnOf(b, k, stagedDll, stagedRanges, token)
  {
    assert part(Shard(k, Dll)) && part(Shard(k, Ranges));
  }

  /** A transaction does to its slot and its staged files what it would do alone. */
  lemma TransactionIsItsOwn(part: Part, w: Setting, v: Setting, m: Proc, n: Proc, k: Slot,
                            stagedDll: Path, stagedRanges: Path, token: string)
    requires Deciding(part, w, v) && Alike(part, m, n) && Covers(part, k) && part(stagedDll) && part(stagedRanges)
    ensures Same(part, Committed(w, m, k, stagedDll, stagedRanges, token), Committed(v, n, k, stagedDll, stagedRanges, token))
  {
    TxnSame(part, m.files, n.files, k, stagedDll, stagedRanges, token);
    var t := TxnOf(m.files, k, stagedDll, stagedRanges, token);
    WrittenSame(part, w, v, m, n, Shard(k, Journal), Record(t));
    var r, s := Written(w, m, Shard(k, Journal), Record(t)), Written(v, n, Shard(k, Journal), Record(t));
    SwappedSame(part, w, v, r.proc, s.proc, k, t, stagedDll, stagedRanges);
    ConcludedSame(part, w, v, Swapped(w, r.proc, k, t, stagedDll, stagedRanges), Swapped(v, s.proc, k, t, stagedDll, stagedRanges), k);
  }
}
