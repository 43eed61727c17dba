/**
 Publication of a staged DLL/ranges pair (the transaction of publish_shard_pair)
 and whole runs of crashed publishers and crashed recoveries.
 */
module PairPublication {
  import opened Prelude
  import opened ShardStore

  /** The journal of `t` is on disk, `t.old*` is what the slot stands for, and the staged halves are still whole. */
  predicate Journalled(files: Files, k: Slot, t: PairTxn, stagedDll: Path, stagedRanges: Path) {
    && RollingBack(files, k, t)
    && t.newDll != None && FileSha256(files, stagedDll) == t.newDll
    && t.newRanges != None && FileSha256(files, stagedRanges) == t.newRanges
    && Restorable(files, Shard(k, Dll), t.backupDll, t.oldDll)
    && Restorable(files, Shard(k, Ranges), t.backupRanges, t.oldRanges)
  }

  predicate Staged(p: Path) { p.Scratch? }

  lemma JournalStep(a: Files, k: Slot, t: PairTxn, stagedDll: Path, stagedRanges: Path)
    requires Shard(k, Journal) !in a && t.wellFormed && Owned(k, t)
    requires Staged(stagedDll) && Staged(stagedRanges)
    requires Visible(a, k) == Pair(t.oldDll, t.oldRanges)
    requires t.newDll != None && FileSha256(a, stagedDll) == t.newDll
    requires t.newRanges != None && FileSha256(a, stagedRanges) == t.newRanges
    ensures var b := a[Shard(k, Journal) := Record(t)];
      && Stutter(k, a, b) && Journalled(b, k, t, stagedDll, stagedRanges)
      && Visible(b, k) == Pair(t.oldDll, t.oldRanges)
  {
  }

  /** Moving the old DLL aside: from here on no DLL is visible until the commit. */
  lemma HideDllStep(a: Files, k: Slot, t: PairTxn, stagedDll: Path, stagedRanges: Path)
    requires Journalled(a, k, t, stagedDll, stagedRanges) && Staged(stagedDll) && Staged(stagedRanges)
    requires Shard(k, Dll) in a && Visible(a, k) == Pair(t.oldDll, t.oldRanges)
    ensures var b := (a - {Shard(k, Dll)})[t.backupDll := a[Shard(k, Dll)]];
      && Stutter(k, a, b) && Journalled(b, k, t, stagedDll, stagedRanges)
      && Visible(b, k) == Pair(None, t.oldRanges)
  {
  }

  lemma HideRangesStep(a: Files, k: Slot, t: PairTxn, stagedDll: Path, stagedRanges: Path)
    requires Journalled(a, k, t, stagedDll, stagedRanges) && Staged(stagedDll) && Staged(stagedRanges)
    requires Shard(k, Ranges) in a && Visible(a, k) == Pair(None, t.oldRanges)
    ensures var b := (a - {Shard(k, Ranges)})[t.backupRanges := a[Shard(k, Ranges)]];
      && Stutter(k, a, b) && Journalled(b, k, t, stagedDll, stagedRanges)
      && Visible(b, k) == Pair(None, None)
  {
  }

  lemma NewRangesStep(a: Files, k: Slot, t: PairTxn, stagedDll: Path, stagedRanges: Path)
    requires Journalled(a, k, t, stagedDll, stagedRanges) && Staged(stagedDll) && Staged(stagedRanges)
    requires stagedDll != stagedRanges && Visible(a, k) == Pair(None, None)
    ensures var b := (a - {stagedRanges})[Shard(k, Ranges) := a[stagedRanges]];
      && Stutter(k, a, b) && FileSha256(b, stagedDll) == t.newDll
      && RollingBack(b, k, t) && Visible(b, k) == Pair(None, t.newRanges)
  {
  }

  /** The commit point is the rename of the staged DLL, and only that. */
  lemma NewDllStep(a: Files, k: Slot, t: PairTxn, stagedDll: Path)
    requires RollingBack(a, k, t) && Staged(stagedDll) && t.newDll != None && t.newRanges != None
    requires FileSha256(a, stagedDll) == t.newDll && Visible(a, k) == Pair(None, t.newRanges)
    ensures var b := (a - {stagedDll})[Shard(k, Dll) := a[stagedDll]];
      && Commit(k, Pair(t.newDll, t.newRanges), a, b) && Visible(b, k) == Pair(t.newDll, t.newRanges)
  {
  }

  lemma StepsWeaken(k: Slot, offer: Option<Pair>, trace: seq<Files>, from: nat)
    requires Steps(k, None, trace, from)
    ensures Steps(k, offer, trace, from)
  {
  }

  // ---- The transaction as a function of what it finds ------------------------

  function MovedAside(w: Setting, m: Proc, expected: Option<Digest>, path: Path, backup: Path): Result {
    if expected == None then Result(m, Done) else Replaced(w, m, path, backup)
  }

  function HiddenOld(w: Setting, m: Proc, k: Slot, t: PairTxn): Result {
    var r := MovedAside(w, m, t.oldDll, Shard(k, Dll), t.backupDll);
    if r.outcome != Done then r else MovedAside(w, r.proc, t.oldRanges, Shard(k, Ranges), t.backupRanges)
  }

  function InstalledNew(w: Setting, m: Proc, k: Slot, stagedDll: Path, stagedRanges: Path): Result {
    var r := Replaced(w, m, stagedRanges, Shard(k, Ranges));
    if r.outcome != Done then r else Replaced(w, r.proc, stagedDll, Shard(k, Dll))
  }

  function Swapped(w: Setting, m: Proc, k: Slot, t: PairTxn, stagedDll: Path, stagedRanges: Path): Result {
    var r := HiddenOld(w, m, k, t);
    if r.outcome != Done then r else InstalledNew(w, r.proc, k, stagedDll, stagedRanges)
  }

  /** The journal of a transaction that replaces what is visible by what is staged. */
  function TxnOf(files: Files, k: Slot, stagedDll: Path, stagedRanges: Path, token: string): PairTxn {
    PairTxn(true, token, Shard(k, OldDll(token)), Shard(k, OldRanges(token)),
            FileSha256(files, Shard(k, Dll)), FileSha256(files, Shard(k, Ranges)),
            FileSha256(files, stagedDll), FileSha256(files, stagedRanges))
  }

  /** The recovery behind the renames, and once more when it was refused behind a commit. */
  function Concluded(w: Setting, r: Result, k: Slot): Result {
    if r.outcome == Died then r
    else
      var s := Recovered(w, r.proc, k);
      if s.outcome == Died then s
      else if r.outcome == Done && s.outcome.Raised? then
        var again := Recovered(w, s.proc, k);
        if again.outcome != Done then again else s.(proc := again.proc)
      else if s.outcome != Done then s else r.(proc := s.proc)
  }

  function Committed(w: Setting, m: Proc, k: Slot, stagedDll: Path, stagedRanges: Path, token: string): Result {
    var t := TxnOf(m.files, k, stagedDll, stagedRanges, token);
    if t.newDll == None || t.newRanges == None then Result(m, Raised(StagedMissing))
    else
      var r := Written(w, m, Shard(k, Journal), Record(t));
      if r.outcome != Done then r else Concluded(w, Swapped(w, r.proc, k, t, stagedDll, stagedRanges), k)
  }

  /** The first two renames: whatever is visible of the old pair goes into the backups. */
  method HideOldHalves(disk: Disk, k: Slot, t: PairTxn, stagedDll: Path, stagedRanges: Path) returns (o: Outcome)
    requires disk.Valid() && Staged(stagedDll) && Staged(stagedRanges)
    requires Journalled(disk.files, k, t, stagedDll, stagedRanges)
    requires Visible(disk.files, k) == Pair(t.oldDll, t.oldRanges)
    modifies disk
    ensures disk.Valid() && old(disk.trace) <= disk.trace
    ensures disk.Since(|old(disk.trace)|, k, None)
    ensures Journalled(disk.files, k, t, stagedDll, stagedRanges)
    ensures o == Done ==> Visible(disk.files, k) == Pair(None, None)
    ensures o == Done || o == Raised(OsError) || o == Died
    ensures (forall n :: disk.fate(n) == Obeyed) ==> o == Done
    ensures disk.Is(HiddenOld(disk.Alone(), old(disk.State()), k, t), o)
  {
    if t.oldDll != None {
      HideDllStep(disk.files, k, t, stagedDll, stagedRanges);
      o := disk.Replace(Shard(k, Dll), t.backupDll);
      if o != Done { return; }
    }
    o := Done;
    if t.oldRanges != None {
      HideRangesStep(disk.files, k, t, stagedDll, stagedRanges);
      o := disk.Replace(Shard(k, Ranges), t.backupRanges);
    }
  }

  /** The last two renames: the manifest, inert on its own, then the DLL. */
  method InstallNewHalves(disk: Disk, k: Slot, t: PairTxn, stagedDll: Path, stagedRanges: Path) returns (o: Outcome)
    requires disk.Valid() && Staged(stagedDll) && Staged(stagedRanges) && stagedDll != stagedRanges
    requires Journalled(disk.files, k, t, stagedDll, stagedRanges)
    requires Visible(disk.files, k) == Pair(None, None)
    modifies disk
    ensures disk.Valid() && old(disk.trace) <= disk.trace
    ensures disk.Since(|old(disk.trace)|, k, Some(Pair(t.newDll, t.newRanges))) && Sound(disk.files, k)
    ensures Settled(disk.files, k) == if o == Done then Pair(t.newDll, t.newRanges) else Pair(t.oldDll, t.oldRanges)
    ensures o == Done || o == Raised(OsError) || o == Died
    ensures (forall n :: disk.fate(n) == Obeyed) ==> o == Done
    ensures disk.Is(InstalledNew(disk.Alone(), old(disk.State()), k, stagedDll, stagedRanges), o)
  {
    NewRangesStep(disk.files, k, t, stagedDll, stagedRanges);
    o := disk.Replace(stagedRanges, Shard(k, Ranges));
    if o != Done { return; }
    NewDllStep(disk.files, k, t, stagedDll);
    o := disk.Replace(stagedDll, Shard(k, Dll));
  }

  /** The four renames.  Anything but `Done` leaves the slot standing for the old pair. */
  method SwapHalves(disk: Disk, k: Slot, t: PairTxn, stagedDll: Path, stagedRanges: Path) returns (o: Outcome)
    requires disk.Valid() && Staged(stagedDll) && Staged(stagedRanges) && stagedDll != stagedRanges
    requires Journalled(disk.files, k, t, stagedDll, stagedRanges)
    requires Visible(disk.files, k) == Pair(t.oldDll, t.oldRanges)
    modifies disk
    ensures disk.Valid() && old(disk.trace) <= disk.trace
    ensures disk.Since(|old(disk.trace)|, k, Some(Pair(t.newDll, t.newRanges))) && Sound(disk.files, k)
    ensures Settled(disk.files, k) == if o == Done then Pair(t.newDll, t.newRanges) else Pair(t.oldDll, t.oldRanges)
    ensures o == Done || o == Raised(OsError) || o == Died
    ensures (forall n :: disk.fate(n) == Obeyed) ==> o == Done
    ensures disk.Is(Swapped(disk.Alone(), old(disk.State()), k, t, stagedDll, stagedRanges), o)
  {
    ghost var offer, from := Some(Pair(t.newDll, t.newRanges)), |disk.trace|;
    o := HideOldHalves(disk, k, t, stagedDll, stagedRanges);
    StepsWeaken(k, offer, disk.trace, from);
    if o != Done { return; }
    ghost var t1 := disk.trace;
    o := InstallNewHalves(disk, k, t, stagedDll, stagedRanges);
    StepsJoin(k, offer, t1, disk.trace, from);
  }

  /** The pair a publisher offers: the digests of its two staged files. */
  function Offer(files: Files, stagedDll: Path, stagedRanges: Path): Pair {
    Pair(FileSha256(files, stagedDll), FileSha256(files, stagedRanges))
  }

  /** The recovery behind the renames: it works the journal off, whichever way they ended. */
  method Conclude(disk: Disk, k: Slot, swapped: Outcome) returns (o: Outcome)
    requires disk.Valid() && Sound(disk.files, k) && (swapped == Done || swapped.Raised?)
    modifies disk
    ensures disk.Valid() && old(disk.trace) <= disk.trace && disk.Since(|old(disk.trace)|, k, None)
    ensures Sound(disk.files, k) && Settled(disk.files, k) == Settled(old(disk.files), k)
    ensures o == Done ==> swapped == Done && Shard(k, Journal) !in disk.files && Visible(disk.files, k) == Settled(disk.files, k)
    ensures o == swapped || o == Raised(OsError) || o == Died
    ensures (forall n :: disk.fate(n) == Obeyed) ==> o == swapped
    ensures disk.Is(Concluded(disk.Alone(), Result(old(disk.State()), swapped), k), o)
  {
    ghost var from := |disk.trace|;
    o := swapped;
    var recovered := RecoverShardPairLocked(disk, k);
    if recovered == Died { return Died; }
    if o == Done && recovered.Raised? {
      o := recovered;
      ghost var t3 := disk.trace;
      recovered := RecoverShardPairLocked(disk, k);
      StepsJoin(k, None, t3, disk.trace, from);
    }
    if recovered != Done {
      o := recovered;
    }
  }

  /** The renames and the recovery behind them, with the journal in place. */
  method SwapAndConclude(disk: Disk, k: Slot, t: PairTxn, stagedDll: Path, stagedRanges: Path) returns (o: Outcome)
    requires disk.Valid() && Staged(stagedDll) && Staged(stagedRanges) && stagedDll != stagedRanges
    requires Journalled(disk.files, k, t, stagedDll, stagedRanges)
    requires Visible(disk.files, k) == Pair(t.oldDll, t.oldRanges)
    modifies disk
    ensures disk.Valid() && old(disk.trace) <= disk.trace && Sound(disk.files, k)
    ensures disk.Since(|old(disk.trace)|, k, Some(Pair(t.newDll, t.newRanges)))
    ensures Settled(disk.files, k) == Pair(t.oldDll, t.oldRanges) || Settled(disk.files, k) == Pair(t.newDll, t.newRanges)
    ensures o == Done ==> Shard(k, Journal) !in disk.files && Visible(disk.files, k) == Pair(t.newDll, t.newRanges)
    ensures o == Done || o == Raised(OsError) || o == Died
    ensures (forall n :: disk.fate(n) == Obeyed) ==> o == Done
    ensures disk.Is(Concluded(disk.Alone(), Swapped(disk.Alone(), old(disk.State()), k, t, stagedDll, stagedRanges), k), o)
  {
    ghost var offer, from := Some(Pair(t.newDll, t.newRanges)), |disk.trace|;
    o := SwapHalves(disk, k, t, stagedDll, stagedRanges);
    if o == Died { return; }
    ghost var t2 := disk.trace;
    o := Conclude(disk, k, o);
    StepsWeaken(k, offer, disk.trace, |t2|);
    StepsJoin(k, offer, t2, disk.trace, from);
  }

  /** The journal of what is about to be replaced and by what. */
  method WriteJournal(disk: Disk, k: Slot, t: PairTxn, stagedDll: Path, stagedRanges: Path) returns (o: Outcome)
    requires disk.Valid() && Staged(stagedDll) && Staged(stagedRanges) && Shard(k, Journal) !in disk.files
    requires t.wellFormed && Owned(k, t) && Visible(disk.files, k) == Pair(t.oldDll, t.oldRanges)
    requires t.newDll != None && FileSha256(disk.files, stagedDll) == t.newDll
    requires t.newRanges != None && FileSha256(disk.files, stagedRanges) == t.newRanges
    modifies disk
    ensures disk.Valid() && old(disk.trace) <= disk.trace
    ensures disk.Since(|old(disk.trace)|, k, Some(Pair(t.newDll, t.newRanges)))
    ensures o != Done ==> disk.files == old(disk.files)
    ensures o == Done ==> Journalled(disk.files, k, t, stagedDll, stagedRanges)
    ensures o == Done ==> Visible(disk.files, k) == Pair(t.oldDll, t.oldRanges)
    ensures o == Done || o == Raised(OsError) || o == Died
    ensures (forall n :: disk.fate(n) == Obeyed) ==> o == Done
    ensures disk.Is(Written(disk.Alone(), old(disk.State()), Shard(k, Journal), Record(t)), o)
  {
    JournalStep(disk.files, k, t, stagedDll, stagedRanges);
    o := disk.WriteAtomic(Shard(k, Journal), Record(t));
  }

  /** The transaction of publish_shard_pair, entered after its own recovery has finished. */
  method CommitStagedPair(disk: Disk, k: Slot, stagedDll: Path, stagedRanges: Path, token: string) returns (o: Outcome)
    requires disk.Valid() && Staged(stagedDll) && Staged(stagedRanges) && stagedDll != stagedRanges
    requires IsToken(token) && Shard(k, Journal) !in disk.files
    modifies disk
    ensures disk.Valid() && old(disk.trace) <= disk.trace && Sound(disk.files, k)
    ensures disk.Since(|old(disk.trace)|, k, Some(Offer(old(disk.files), stagedDll, stagedRanges)))
    ensures Settled(disk.files, k) == Visible(old(disk.files), k) ||
            Settled(disk.files, k) == Offer(old(disk.files), stagedDll, stagedRanges)
    ensures o == Done ==> && Shard(k, Journal) !in disk.files
                          && Visible(disk.files, k) == Offer(old(disk.files), stagedDll, stagedRanges)
    ensures o == Done || o == Raised(OsError) || o == Raised(StagedMissing) || o == Died
    ensures o == Raised(StagedMissing) ==> disk.files == old(disk.files) && disk.trace == old(disk.trace)
    ensures o == Raised(StagedMissing) <==> stagedDll !in old(disk.files) || stagedRanges !in old(disk.files)
    ensures (forall n :: disk.fate(n) == Obeyed) && stagedDll in old(disk.files) && stagedRanges in old(disk.files) ==> o == Done
    ensures disk.Is(Committed(disk.Alone(), old(disk.State()), k, stagedDll, stagedRanges, token), o)
  {
    ghost var from := |disk.trace|;
    ghost var offer := Some(Offer(disk.files, stagedDll, stagedRanges));
    var t := TxnOf(disk.files, k, stagedDll, stagedRanges, token);
    if t.newDll == None || t.newRanges == None {
      return Raised(StagedMissing);
    }
    o := WriteJournal(disk, k, t, stagedDll, stagedRanges);
    if o != Done { return; }
    ghost var t1 := disk.trace;
    o := SwapAndConclude(disk, k, t, stagedDll, stagedRanges);
    StepsJoin(k, offer, t1, disk.trace, from);
  }
}
