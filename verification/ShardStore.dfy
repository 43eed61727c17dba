/**
 The cache directory as a finite map from names to contents, and the crash
 recovery of one DLL/ranges pair.

 Every mutation of the directory is one step.  A step may succeed, be refused
 by the operating system (an OSError, nothing changes) or be the moment the
 process dies; which of the three happens is decided by an arbitrary function
 of the step number, so a contract proved here holds for every crash point.
 */
module ShardStore {
  import opened Prelude

  /** One canonical `XXXXXXXX_YYYYYYYY` basename in one compiler-tier directory. */
  datatype Slot = Slot(tier: nat, name: string)

  datatype Kind = Dll | Ranges | Journal | OldDll(token: string) | OldRanges(token: string)

  datatype Path = Shard(slot: Slot, kind: Kind) | Scratch(name: string)

  /**
   File contents.  A DLL is what the loader can ask of it: the value of `overlay_abi`,
   the value of `overlay_pair_id`, whether `overlay_init` and `overlay_flush_cycles`
   exist, and the addresses with a `func_` export.
   */
  datatype Content =
    | Image(abi: Option<nat>, pairId: Option<nat>, hooks: bool, entries: set<int>)
    | Text(text: string)
    | Record(txn: PairTxn)
    | Raw(bytes: seq<nat>)

  /** SHA-256, taken to be injective. */
  datatype Digest = Sha256(of: Content)

  /** `wellFormed`: the schema string is right and every required key is present. */
  datatype PairTxn = PairTxn(
    wellFormed: bool, token: string, backupDll: Path, backupRanges: Path,
    oldDll: Option<Digest>, oldRanges: Option<Digest>,
    newDll: Option<Digest>, newRanges: Option<Digest>)

  type Files = map<Path, Content>

  /** What a reader finds under the two canonical names. */
  datatype Pair = Pair(dll: Option<Digest>, ranges: Option<Digest>)

  datatype Error = OsError | UnreadableJournal | InvalidJournal | InvalidOwnership | NeitherIsOld
                 | StagedMissing | StagedUnreadable | CapacityExceeded

  datatype Outcome = Done | Raised(error: Error) | Died

  function FileSha256(files: Files, p: Path): Option<Digest> {
    if p in files then Some(Sha256(files[p])) else None
  }

  function Visible(files: Files, k: Slot): Pair {
    Pair(FileSha256(files, Shard(k, Dll)), FileSha256(files, Shard(k, Ranges)))
  }

  predicate IsToken(token: string) {
    |token| == 32 && forall c :: c in token ==> '0' <= c <= '9' || 'a' <= c <= 'f'
  }

  /** A token is 32 digits of the lower-case hexadecimal alphabet. */
  lemma TokenExactly(token: string)
    ensures IsToken(token) <==> |token| == 32 && forall c :: c in token ==> 0x30 <= c as int <= 0x39 || 0x61 <= c as int <= 0x66
  {
  }

  predicate Owned(k: Slot, t: PairTxn) {
    IsToken(t.token)
    && t.backupDll == Shard(k, OldDll(t.token))
    && t.backupRanges == Shard(k, OldRanges(t.token))
  }

  predicate NewComplete(files: Files, k: Slot, t: PairTxn) {
    Visible(files, k) == Pair(t.newDll, t.newRanges)
  }

  predicate IsDebris(k: Slot, p: Path) {
    p.Shard? && p.slot == k && (p.kind.OldDll? || p.kind.OldRanges?)
  }

  /** The old half can be put back: nothing to put back, still in place, or in the backup. */
  predicate Restorable(files: Files, p: Path, backup: Path, expected: Option<Digest>) {
    expected == None || FileSha256(files, p) == expected || FileSha256(files, backup) == expected
  }

  /** The invariant of one slot at every instant, crashed or not. */
  predicate Sound(files: Files, k: Slot) {
    Shard(k, Journal) in files ==>
      && files[Shard(k, Journal)].Record?
      && var t := files[Shard(k, Journal)].txn;
      && t.wellFormed && Owned(k, t) && t.newDll.Some? && t.newRanges.Some?
      && (NewComplete(files, k, t) ||
          (&& Restorable(files, Shard(k, Dll), t.backupDll, t.oldDll)
           && Restorable(files, Shard(k, Ranges), t.backupRanges, t.oldRanges)
           && (Shard(k, Dll) in files ==> Visible(files, k) == Pair(t.oldDll, t.oldRanges))))
  }

  /** The pair the slot stands for: what an undisturbed recovery would leave visible. */
  function Settled(files: Files, k: Slot): Pair
    requires Sound(files, k)
  {
    if Shard(k, Journal) !in files then Visible(files, k)
    else
      var t := files[Shard(k, Journal)].txn;
      if NewComplete(files, k, t) then Pair(t.newDll, t.newRanges) else Pair(t.oldDll, t.oldRanges)
  }

  predicate SameElsewhere(k: Slot, a: Files, b: Files) {
    && (forall p :: p in a && p.Shard? && p.slot != k ==> p in b && b[p] == a[p])
    && (forall p :: p in b && p.Shard? && p.slot != k ==> p in a)
  }

  /** Names that do not belong to slot `k` keep their contents. */
  ghost predicate OnlySlot(k: Slot, a: Files, b: Files) {
    forall p: Path :: (p.Shard? ==> p.slot != k) ==> FileSha256(b, p) == FileSha256(a, p)
  }

  /** A step that keeps the slot sound and does not change what it stands for. */
  predicate Stutter(k: Slot, a: Files, b: Files) {
    Sound(a, k) && Sound(b, k) && Settled(a, k) == Settled(b, k) && SameElsewhere(k, a, b)
  }

  /** A step that makes the slot stand for `offer`. */
  predicate Commit(k: Slot, offer: Pair, a: Files, b: Files) {
    Sound(a, k) && Sound(b, k) && Settled(b, k) == offer && SameElsewhere(k, a, b)
  }

  /** Without a journal only transaction backups of the slot go away. */
  predicate Tidy(k: Slot, a: Files, b: Files) {
    Shard(k, Journal) !in a ==>
      && (forall p :: p in b && p.Shard? && p.slot == k ==> p in a && b[p] == a[p])
      && (forall p :: p in a && p.Shard? && p.slot == k && !IsDebris(k, p) ==> p in b)
  }

  /** A step of a recovery: silent, and without a journal to work off it only tidies up. */
  predicate Recovering(k: Slot, a: Files, b: Files) { Stutter(k, a, b) && Tidy(k, a, b) }

  /** A step of the protocol: of a recovery, or of a publication of the offer. */
  predicate StepFor(k: Slot, offer: Option<Pair>, a: Files, b: Files) {
    if offer.None? then Recovering(k, a, b) else Stutter(k, a, b) || Commit(k, offer.value, a, b)
  }

  ghost predicate Steps(k: Slot, offer: Option<Pair>, trace: seq<Files>, from: nat) {
    forall i :: 0 < from <= i < |trace| ==> StepFor(k, offer, trace[i-1], trace[i])
  }

  datatype Fate = Obeyed | Refused | Killed

  // ---- A process as a function of what it finds ---------------------------

  /**
   What a process cannot decide: the fate of each mutation, the order in which names are listed, which names are its
   own, and what the others have made of the rest by the time of each mutation, if anything.
   */
  datatype Setting = Setting(fate: nat -> Fate, glob: (nat, set<Path>) -> seq<Path>, mine: Path -> bool, others: nat -> Option<Files>)

  /** The directory, the number of mutations so far, and all directories that the process has left. */
  datatype Proc = Proc(files: Files, clock: nat, trace: seq<Files>)

  datatype Result = Result(proc: Proc, outcome: Outcome)

  /** The own names from the one directory, the rest from the other. */
  function Blend(mine: Path -> bool, own: Files, other: Files): Files {
    map p | p in own.Keys + other.Keys && (if mine(p) then p in own else p in other) :: if mine(p) then own[p] else other[p]
  }

  /** The directory at the next mutation. */
  function Around(w: Setting, m: Proc): Files {
    match w.others(m.clock) case None => m.files case Some(other) => Blend(w.mine, m.files, other)
  }

  /** A mutation that leaves `done` if the system obeys. */
  function Mutate(w: Setting, m: Proc, done: Files): Result {
    match w.fate(m.clock)
    case Obeyed => Result(Proc(done, m.clock + 1, m.trace + [done]), Done)
    case Refused => Result(Proc(Around(w, m), m.clock + 1, m.trace + [Around(w, m)]), Raised(OsError))
    case Killed => Result(Proc(Around(w, m), m.clock + 1, m.trace + [Around(w, m)]), Died)
  }

  function Replaced(w: Setting, m: Proc, src: Path, dst: Path): Result {
    var now := Around(w, m);
    var r := Mutate(w, m, if src in now then (now - {src})[dst := now[src]] else now);
    if r.outcome == Done && src !in now then r.(outcome := Raised(OsError)) else r
  }

  function Unlinked(w: Setting, m: Proc, p: Path): Result { Mutate(w, m, Around(w, m) - {p}) }

  function Written(w: Setting, m: Proc, p: Path, c: Content): Result { Mutate(w, m, Around(w, m)[p := c]) }

  /** A refusal is swallowed. */
  function BestEffort(r: Result): Result { if r.outcome.Raised? then r.(outcome := Done) else r }

  function UnlinkedAll(w: Setting, m: Proc, list: seq<Path>): Result
    decreases |list|
  {
    if list == [] then Result(m, Done)
    else
      var r := BestEffort(Unlinked(w, m, list[0]));
      if r.outcome == Died then r else UnlinkedAll(w, r.proc, list[1..])
  }

  function Debris(files: Files, k: Slot): set<Path> { set p | p in files && IsDebris(k, p) }

  function CleanedUp(w: Setting, m: Proc, k: Slot): Result { UnlinkedAll(w, m, w.glob(m.clock, Debris(m.files, k))) }

  function PutAway(w: Setting, m: Proc, p: Path): Result { if p in m.files then Unlinked(w, m, p) else Result(m, Done) }

  function PutBack(w: Setting, m: Proc, h: Half): Result {
    var r := PutAway(w, m, h.path);
    if r.outcome != Done then r else Replaced(w, r.proc, h.backup, h.path)
  }

  function HalfRestored(w: Setting, m: Proc, h: Half): Result {
    if h.expected == None then PutAway(w, m, h.path)
    else if FileSha256(m.files, h.path) == h.expected then Result(m, Done)
    else if FileSha256(m.files, h.backup) != h.expected then Result(m, Raised(NeitherIsOld))
    else PutBack(w, m, h)
  }

  function BackupsDropped(w: Setting, m: Proc, backupDll: Path, backupRanges: Path): Result {
    var r := BestEffort(Unlinked(w, m, backupDll));
    if r.outcome == Died then r else BestEffort(Unlinked(w, r.proc, backupRanges))
  }

  function Retired(w: Setting, m: Proc, k: Slot, backupDll: Path, backupRanges: Path): Result {
    var r := Unlinked(w, m, Shard(k, Journal));
    if r.outcome != Done then r else BackupsDropped(w, r.proc, backupDll, backupRanges)
  }

  /** The rollback of a transaction that has not committed. */
  function RolledBack(w: Setting, m: Proc, k: Slot, t: PairTxn): Result {
    var r := HalfRestored(w, m, RangesHalf(k, t));
    if r.outcome != Done then r
    else
      var s := HalfRestored(w, r.proc, DllHalf(k, t));
      if s.outcome != Done then s else Retired(w, s.proc, k, t.backupDll, t.backupRanges)
  }

  function Recovered(w: Setting, m: Proc, k: Slot): Result {
    if Shard(k, Journal) !in m.files then CleanedUp(w, m, k)
    else if !m.files[Shard(k, Journal)].Record? then Result(m, Raised(UnreadableJournal))
    else
      var t := m.files[Shard(k, Journal)].txn;
      if !t.wellFormed then Result(m, Raised(InvalidJournal))
      else if !Owned(k, t) then Result(m, Raised(InvalidOwnership))
      else if NewComplete(m.files, k, t) then Retired(w, m, k, t.backupDll, t.backupRanges)
      else RolledBack(w, m, k, t)
  }

  predicate Everything(p: Path) { true }

  function Nobody(n: nat): Option<Files> { None }

  class Disk {
    var files: Files
    var clock: nat
    const fate: nat -> Fate
    const glob: (nat, set<Path>) -> seq<Path>
    ghost var trace: seq<Files>

    ghost predicate Valid()
      reads this
    {
      && |trace| > 0 && trace[|trace| - 1] == files
      && forall n, names: set<Path>, p :: p in glob(n, names) <==> p in names
    }

    constructor (initial: Files, fate: nat -> Fate, glob: (nat, set<Path>) -> seq<Path>)
      requires forall n, names: set<Path>, p :: p in glob(n, names) <==> p in names
      ensures Valid() && files == initial && trace == [initial] && this.fate == fate && this.glob == glob
    {
      files := initial;
      clock := 0;
      this.fate := fate;
      this.glob := glob;
      trace := [initial];
    }

    /** The process that works on this directory, and its setting if no one else works there. */
    ghost function State(): Proc
      reads this
    {
      Proc(files, clock, trace)
    }

    function Alone(): Setting { Setting(fate, glob, Everything, Nobody) }

    /** The process has become what the result says. */
    ghost predicate Is(r: Result, o: Outcome)
      reads this
    {
      State() == r.proc && o == r.outcome
    }

    /** The fate of the next mutation. */
    method Tick() returns (o: Outcome)
      modifies this`clock
      ensures (forall n :: fate(n) == Obeyed) ==> o == Done
      ensures o == Done || o == Raised(OsError) || o == Died
      ensures clock == old(clock) + 1
      ensures o == match fate(old(clock)) case Obeyed => Done case Refused => Raised(OsError) case Killed => Died
    {
      o := match fate(clock) case Obeyed => Done case Refused => Raised(OsError) case Killed => Died;
      clock := clock + 1;
    }

    /** `os.replace` */
    method Replace(src: Path, dst: Path) returns (o: Outcome)
      requires Valid() && src != dst
      modifies this
      ensures Valid() && trace == old(trace) + [files]
      ensures o == Done ==> src in old(files) && files == (old(files) - {src})[dst := old(files)[src]]
      ensures o != Done ==> files == old(files)
      ensures o == Done || o == Raised(OsError) || o == Died
      ensures (forall n :: fate(n) == Obeyed) && src in old(files) ==> o == Done
      ensures Is(Replaced(Alone(), old(State()), src, dst), o)
    {
      o := Tick();
      if o == Done {
        if src in files {
          files := (files - {src})[dst := files[src]];
        } else {
          o := Raised(OsError);
        }
      }
      trace := trace + [files];
    }

    /** `_unlink_if_present` */
    method UnlinkIfPresent(p: Path) returns (o: Outcome)
      requires Valid()
      modifies this
      ensures Valid() && trace == old(trace) + [files]
      ensures files == if o == Done then old(files) - {p} else old(files)
      ensures o == Done || o == Raised(OsError) || o == Died
      ensures (forall n :: fate(n) == Obeyed) ==> o == Done
      ensures Is(Unlinked(Alone(), old(State()), p), o)
    {
      o := Tick();
      if o == Done {
        files := files - {p};
      }
      trace := trace + [files];
    }

    /** `_best_effort_unlink`: a refusal is swallowed, a death is not. */
    method BestEffortUnlink(p: Path) returns (o: Outcome)
      requires Valid()
      modifies this
      ensures Valid() && trace == old(trace) + [files]
      ensures files == old(files) || files == old(files) - {p}
      ensures o == Done || o == Died
      ensures (forall n :: fate(n) == Obeyed) ==> o == Done && files == old(files) - {p}
      ensures Is(BestEffort(Unlinked(Alone(), old(State()), p)), o)
    {
      o := UnlinkIfPresent(p);
      if o.Raised? {
        o := Done;
      }
    }

    /** `_write_json_atomic`: the temporary is private, the final rename is the step. */
    method WriteAtomic(p: Path, c: Content) returns (o: Outcome)
      requires Valid()
      modifies this
      ensures Valid() && trace == old(trace) + [files]
      ensures files == if o == Done then old(files)[p := c] else old(files)
      ensures o == Done || o == Raised(OsError) || o == Died
      ensures (forall n :: fate(n) == Obeyed) ==> o == Done
      ensures Is(Written(Alone(), old(State()), p, c), o)
    {
      o := Tick();
      if o == Done {
        files := files[p := c];
      }
      trace := trace + [files];
    }

    /** Every state since `from` is reached from the one before it by a protocol step. */
    ghost predicate Since(from: nat, k: Slot, offer: Option<Pair>)
      reads this
    {
      from <= |trace| && Steps(k, offer, trace, from)
    }
  }

  /** `b` is `a` without some transaction backups of slot `k`. */
  predicate Cleaned(k: Slot, a: Files, b: Files) {
    && b.Keys <= a.Keys
    && (forall p :: p in b ==> b[p] == a[p])
    && (forall p :: p in a && !IsDebris(k, p) ==> p in b)
  }

  lemma CleanedKeepsPair(k: Slot, a: Files, b: Files)
    requires Cleaned(k, a, b) && Shard(k, Journal) !in a
    ensures Recovering(k, a, b) && Visible(a, k) == Visible(b, k)
  {
    assert !IsDebris(k, Shard(k, Dll)) && !IsDebris(k, Shard(k, Ranges));
  }

  lemma StepsSnoc(k: Slot, offer: Option<Pair>, trace: seq<Files>, from: nat, next: Files)
    requires 0 < from <= |trace| && Steps(k, offer, trace, from)
    requires StepFor(k, offer, trace[|trace|-1], next)
    ensures Steps(k, offer, trace + [next], from)
  {
  }

  /** `_cleanup_old_pair_debris` */
  method CleanupOldPairDebris(disk: Disk, k: Slot) returns (o: Outcome)
    requires disk.Valid() && Shard(k, Journal) !in disk.files
    modifies disk
    ensures disk.Valid() && old(disk.trace) <= disk.trace
    ensures disk.Since(|old(disk.trace)|, k, None)
    ensures Cleaned(k, old(disk.files), disk.files)
    ensures o == Done || o == Died
    ensures (forall n :: disk.fate(n) == Obeyed) ==> o == Done && forall p :: p in disk.files ==> !IsDebris(k, p)
    ensures disk.Is(CleanedUp(disk.Alone(), old(disk.State()), k), o)
  {
    var found := disk.glob(disk.clock, Debris(disk.files, k));
    o := Done;
    while found != []
      invariant disk.Valid() && old(disk.trace) <= disk.trace
      invariant disk.Since(|old(disk.trace)|, k, None)
      invariant Cleaned(k, old(disk.files), disk.files)
      invariant forall p :: p in found ==> IsDebris(k, p)
      invariant o == Done
      invariant (forall n :: disk.fate(n) == Obeyed) ==> forall p :: p in disk.files && IsDebris(k, p) ==> p in found
      invariant UnlinkedAll(disk.Alone(), disk.State(), found) == CleanedUp(disk.Alone(), old(disk.State()), k)
      decreases |found|
    {
      var p := found[0];
      found := found[1..];
      ghost var before, seen := disk.files, disk.trace;
      o := disk.BestEffortUnlink(p);
      CleanedKeepsPair(k, before, disk.files);
      StepsSnoc(k, None, seen, |old(disk.trace)|, disk.files);
      if o == Died {
        return;
      }
    }
  }

  /** A rollback is under way: the journal names the pair `t` replaced and the slot stands for it. */
  predicate RollingBack(files: Files, k: Slot, t: PairTxn) {
    && Shard(k, Journal) in files && files[Shard(k, Journal)] == Record(t)
    && Sound(files, k) && Settled(files, k) == Pair(t.oldDll, t.oldRanges)
  }

  /** One half of the pair with its backup and the digest it had before. */
  datatype Half = Half(path: Path, backup: Path, expected: Option<Digest>)

  function DllHalf(k: Slot, t: PairTxn): Half {
    Half(Shard(k, Dll), t.backupDll, t.oldDll)
  }

  function RangesHalf(k: Slot, t: PairTxn): Half {
    Half(Shard(k, Ranges), t.backupRanges, t.oldRanges)
  }

  /** The manifest is rolled back before the DLL. */
  predicate Turn(files: Files, k: Slot, t: PairTxn, h: Half) {
    || h == RangesHalf(k, t)
    || (h == DllHalf(k, t) && FileSha256(files, Shard(k, Ranges)) == t.oldRanges)
  }

  lemma DropHalf(a: Files, k: Slot, t: PairTxn, h: Half)
    requires RollingBack(a, k, t) && Turn(a, k, t, h)
    requires FileSha256(a, h.path) != h.expected
    ensures Recovering(k, a, a - {h.path}) && RollingBack(a - {h.path}, k, t)
    ensures Turn(a - {h.path}, k, t, h)
  {
  }

  lemma ReturnHalf(a: Files, k: Slot, t: PairTxn, h: Half)
    requires RollingBack(a, k, t) && Turn(a, k, t, h)
    requires h.path !in a && h.backup in a && FileSha256(a, h.backup) == h.expected
    ensures var b := (a - {h.backup})[h.path := a[h.backup]];
      Recovering(k, a, b) && RollingBack(b, k, t)
  {
  }

  /** Whatever is in the way of the old half goes. */
  method PutHalfAway(disk: Disk, ghost k: Slot, ghost t: PairTxn, h: Half) returns (o: Outcome)
    requires disk.Valid() && FileSha256(disk.files, h.path) != h.expected
    modifies disk
    ensures disk.Valid() && old(disk.trace) <= disk.trace
    ensures disk.files == if o == Done then old(disk.files) - {h.path} else old(disk.files)
    ensures o == Done || o == Raised(OsError) || o == Died
    ensures (forall n :: disk.fate(n) == Obeyed) ==> o == Done
    ensures RollingBack(old(disk.files), k, t) && Turn(old(disk.files), k, t, h) ==>
      disk.Since(|old(disk.trace)|, k, None) && RollingBack(disk.files, k, t) && Turn(disk.files, k, t, h)
    ensures disk.Is(PutAway(disk.Alone(), old(disk.State()), h.path), o)
  {
    o := Done;
    if h.path in disk.files {
      if RollingBack(disk.files, k, t) && Turn(disk.files, k, t, h) { DropHalf(disk.files, k, t, h); }
      o := disk.UnlinkIfPresent(h.path);
    }
  }

  /** The last branch of the nested `restore`: whatever is in the way goes, and the backup comes back. */
  method PutHalfBack(disk: Disk, ghost k: Slot, ghost t: PairTxn, h: Half) returns (o: Outcome)
    requires disk.Valid() && h.path != h.backup && h.expected != None
    requires FileSha256(disk.files, h.path) != h.expected && FileSha256(disk.files, h.backup) == h.expected
    modifies disk
    ensures disk.Valid() && old(disk.trace) <= disk.trace
    ensures forall p :: p != h.path && p != h.backup ==> FileSha256(disk.files, p) == FileSha256(old(disk.files), p)
    ensures o == Done ==> FileSha256(disk.files, h.path) == h.expected
    ensures o == Done || o == Raised(OsError) || o == Died
    ensures (forall n :: disk.fate(n) == Obeyed) ==> o == Done
    ensures RollingBack(old(disk.files), k, t) && Turn(old(disk.files), k, t, h) ==>
      disk.Since(|old(disk.trace)|, k, None) && RollingBack(disk.files, k, t)
    ensures disk.Is(PutBack(disk.Alone(), old(disk.State()), h), o)
  {
    o := PutHalfAway(disk, k, t, h);
    if o != Done {
      return;
    }
    ghost var before, seen := disk.files, disk.trace;
    o := disk.Replace(h.backup, h.path);
    if RollingBack(before, k, t) && Turn(before, k, t, h) { ReturnHalf(before, k, t, h); }
  }

  /** The nested `restore` of `_recover_shard_pair_locked`. */
  method Restore(disk: Disk, ghost k: Slot, ghost t: PairTxn, h: Half) returns (o: Outcome)
    requires disk.Valid() && h.path != h.backup
    requires h == RangesHalf(k, t) || h == DllHalf(k, t)
    modifies disk
    ensures disk.Valid() && old(disk.trace) <= disk.trace
    ensures forall p :: p != h.path && p != h.backup ==> FileSha256(disk.files, p) == FileSha256(old(disk.files), p)
    ensures o == Done ==> FileSha256(disk.files, h.path) == h.expected
    ensures o == Raised(NeitherIsOld) ==> !Restorable(old(disk.files), h.path, h.backup, h.expected)
    ensures o == Done || o == Raised(OsError) || o == Raised(NeitherIsOld) || o == Died
    ensures (forall n :: disk.fate(n) == Obeyed) && o != Done ==> o == Raised(NeitherIsOld)
    ensures RollingBack(old(disk.files), k, t) && Turn(old(disk.files), k, t, h) ==>
      disk.Since(|old(disk.trace)|, k, None) && RollingBack(disk.files, k, t)
    ensures disk.Is(HalfRestored(disk.Alone(), old(disk.State()), h), o)
  {
    var current := FileSha256(disk.files, h.path);
    if h.expected == None {
      o := Done;
      if current != None {
        o := PutHalfAway(disk, k, t, h);
      }
      return;
    }
    if current == h.expected {
      return Done;
    }
    if FileSha256(disk.files, h.backup) != h.expected {
      return Raised(NeitherIsOld);
    }
    o := PutHalfBack(disk, k, t, h);
  }

  /** A committed pair or a finished rollback no longer needs its journal. */
  lemma RetireJournal(a: Files, k: Slot)
    requires Sound(a, k) && Visible(a, k) == Settled(a, k)
    ensures Recovering(k, a, a - {Shard(k, Journal)})
    ensures Visible(a - {Shard(k, Journal)}, k) == Settled(a, k)
  {
  }

  lemma StepsJoin(k: Slot, offer: Option<Pair>, trace: seq<Files>, longer: seq<Files>, from: nat)
    requires 0 < from <= |trace| && trace <= longer
    requires Steps(k, offer, trace, from) && Steps(k, offer, longer, |trace|)
    ensures Steps(k, offer, longer, from)
  {
  }

  /** The two backups of a finished transaction are removed as far as possible. */
  method DropBackups(disk: Disk, k: Slot, backupDll: Path, backupRanges: Path) returns (o: Outcome)
    requires disk.Valid() && Shard(k, Journal) !in disk.files
    requires IsDebris(k, backupDll) && IsDebris(k, backupRanges)
    modifies disk
    ensures disk.Valid() && old(disk.trace) <= disk.trace
    ensures disk.Since(|old(disk.trace)|, k, None)
    ensures Cleaned(k, old(disk.files), disk.files)
    ensures o == Done || o == Died
    ensures (forall n :: disk.fate(n) == Obeyed) ==>
      o == Done && disk.files == old(disk.files) - {backupDll, backupRanges}
    ensures disk.Is(BackupsDropped(disk.Alone(), old(disk.State()), backupDll, backupRanges), o)
  {
    ghost var f0 := disk.files;
    o := disk.BestEffortUnlink(backupDll);
    ghost var f1, t1 := disk.files, disk.trace;
    CleanedKeepsPair(k, f0, f1);
    if o == Died {
      return;
    }
    o := disk.BestEffortUnlink(backupRanges);
    CleanedKeepsPair(k, f1, disk.files);
    StepsSnoc(k, None, t1, |old(disk.trace)|, disk.files);
  }

  lemma RetiredFiles(k: Slot, start: Files, last: Files)
    requires Cleaned(k, start - {Shard(k, Journal)}, last)
    ensures Visible(last, k) == Visible(start, k) && OnlySlot(k, start, last)
  {
    assert !IsDebris(k, Shard(k, Dll)) && !IsDebris(k, Shard(k, Ranges));
  }

  lemma RetiredSteps(k: Slot, t0: seq<Files>, t1: seq<Files>, t2: seq<Files>)
    requires |t0| > 0 && t0 < t1 && |t1| == |t0| + 1 && t1 <= t2 && t1[|t0|-1] == t0[|t0|-1]
    requires Recovering(k, t0[|t0|-1], t1[|t0|]) && Steps(k, None, t2, |t1|)
    ensures Steps(k, None, t2, |t0|)
  {
  }

  /** Removing the journal and then, as far as possible, the two backups. */
  method Retire(disk: Disk, k: Slot, backupDll: Path, backupRanges: Path) returns (o: Outcome)
    requires disk.Valid() && IsDebris(k, backupDll) && IsDebris(k, backupRanges)
    modifies disk
    ensures disk.Valid() && old(disk.trace) <= disk.trace
    ensures o == Done ==> Shard(k, Journal) !in disk.files
    ensures o == Done || o == Raised(OsError) || o == Died
    ensures Visible(disk.files, k) == Visible(old(disk.files), k) && OnlySlot(k, old(disk.files), disk.files)
    ensures (forall n :: disk.fate(n) == Obeyed) ==>
      o == Done && disk.files == old(disk.files) - {Shard(k, Journal), backupDll, backupRanges}
    ensures Sound(old(disk.files), k) && Visible(old(disk.files), k) == Settled(old(disk.files), k) ==>
      disk.Since(|old(disk.trace)|, k, None) && Sound(disk.files, k) &&
      Settled(disk.files, k) == Settled(old(disk.files), k)
    ensures disk.Is(Retired(disk.Alone(), old(disk.State()), k, backupDll, backupRanges), o)
  {
    ghost var start, t0 := disk.files, disk.trace;
    ghost var settled := Sound(start, k) && Visible(start, k) == Settled(start, k);
    if settled { RetireJournal(start, k); }
    o := disk.UnlinkIfPresent(Shard(k, Journal));
    if o != Done {
      return;
    }
    ghost var f1, t1 := disk.files, disk.trace;
    o := DropBackups(disk, k, backupDll, backupRanges);
    RetiredFiles(k, start, disk.files);
    if settled {
      CleanedKeepsPair(k, f1, disk.files);
      RetiredSteps(k, t0, t1, disk.trace);
    }
  }

  /** What recovery does with the directory it finds; `Done` means it ran to its end. */
  method RecoverShardPairLocked(disk: Disk, k: Slot) returns (o: Outcome)
    requires disk.Valid()
    modifies disk
    ensures disk.Valid() && old(disk.trace) <= disk.trace && OnlySlot(k, old(disk.files), disk.files)
    // Any directory: success means the journal is gone, failure names its cause.
    ensures o == Done ==> Shard(k, Journal) !in disk.files
    ensures o == Raised(NeitherIsOld) ==> !Sound(old(disk.files), k)
    // A sound slot: every intermediate state is sound and stands for the same pair,
    // only the operating system can stop the recovery, and a finished one shows that pair.
    ensures Sound(old(disk.files), k) ==>
      && disk.Since(|old(disk.trace)|, k, None)
      && Sound(disk.files, k) && Settled(disk.files, k) == Settled(old(disk.files), k)
      && (o == Done || o == Raised(OsError) || o == Died)
      && (o == Done ==> Visible(disk.files, k) == Settled(old(disk.files), k))
      && ((forall n :: disk.fate(n) == Obeyed) ==> o == Done)
    ensures disk.Is(Recovered(disk.Alone(), old(disk.State()), k), o)
  {
    ghost var from := |disk.trace|;
    ghost var sound := Sound(disk.files, k);
    if Shard(k, Journal) !in disk.files {
      ghost var start := disk.files;
      o := CleanupOldPairDebris(disk, k);
      CleanedKeepsPair(k, start, disk.files);
      if o == Done { assert Shard(k, Journal) !in disk.files; }
      return;
    }
    if !disk.files[Shard(k, Journal)].Record? {
      return Raised(UnreadableJournal);
    }
    var t := disk.files[Shard(k, Journal)].txn;
    if !t.wellFormed {
      return Raised(InvalidJournal);
    }
    if !Owned(k, t) {
      return Raised(InvalidOwnership);
    }
    if NewComplete(disk.files, k, t) {
      o := Retire(disk, k, t.backupDll, t.backupRanges);
      return;
    }
    o := Restore(disk, k, t, RangesHalf(k, t));
    if o != Done {
      return;
    }
    ghost var t1 := disk.trace;
    o := Restore(disk, k, t, DllHalf(k, t));
    if sound { StepsJoin(k, None, t1, disk.trace, from); }
    if o != Done {
      return;
    }
    ghost var t2 := disk.trace;
    assert FileSha256(disk.files, Shard(k, Ranges)) == t.oldRanges;
    o := Retire(disk, k, t.backupDll, t.backupRanges);
    if sound { StepsJoin(k, None, t2, disk.trace, from); }
  }
}
