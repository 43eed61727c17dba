/**
 The pair locks: processes that each work on one slot under its lock, interleaved step by step. What a process does
 is the trace that it would produce alone from the directory it finds when it gets the lock; the others meanwhile
 change other slots. Every such interleaving is a run of the capacity system.
 */
module PairLocks {
  import opened Prelude
  import opened ShardStore
  import opened PairPublication
  import opened CacheInventory
  import opened CachePublication
  import opened CacheRuns
  import opened SlotIndependence

  // ---- A step of one slot does not see the others -----------------------------

  /** Both directories have the same files of the slot. */
  ghost predicate SamePart(k: Slot, a: Files, b: Files) {
    forall p: Path :: p.Shard? && p.slot == k ==> FileSha256(a, p) == FileSha256(b, p)
  }

  lemma SoundPart(k: Slot, a: Files, b: Files)
    requires SamePart(k, a, b) && Sound(a, k)
    ensures Sound(b, k) && Settled(b, k) == Settled(a, k)
  {
    assert FileSha256(b, Shard(k, Journal)) == FileSha256(a, Shard(k, Journal));
    assert FileSha256(b, Shard(k, Dll)) == FileSha256(a, Shard(k, Dll));
    assert FileSha256(b, Shard(k, Ranges)) == FileSha256(a, Shard(k, Ranges));
    if Shard(k, Journal) in a {
      var t := a[Shard(k, Journal)].txn;
      assert FileSha256(b, t.backupDll) == FileSha256(a, t.backupDll);
      assert FileSha256(b, t.backupRanges) == FileSha256(a, t.backupRanges);
    }
  }

  lemma TidyPart(k: Slot, a: Files, b: Files, c: Files, d: Files)
    requires SamePart(k, a, c) && SamePart(k, b, d) && Tidy(k, a, b)
    ensures Tidy(k, c, d)
  {
    assert FileSha256(a, Shard(k, Journal)) == FileSha256(c, Shard(k, Journal));
    if Shard(k, Journal) !in c {
      forall p | p in d && p.Shard? && p.slot == k ensures p in c && d[p] == c[p] {
        assert FileSha256(b, p) == FileSha256(d, p) && FileSha256(a, p) == FileSha256(c, p);
      }
      forall p | p in c && p.Shard? && p.slot == k && !IsDebris(k, p) ensures p in d {
        assert FileSha256(b, p) == FileSha256(d, p) && FileSha256(a, p) == FileSha256(c, p);
      }
    }
  }

  /** A step proved for one directory is the same step in every directory that agrees on the slot. */
  lemma StepRelocates(k: Slot, offer: Option<Pair>, a: Files, b: Files, c: Files, d: Files)
    requires StepFor(k, offer, a, b) && SamePart(k, a, c) && SamePart(k, b, d) && SameElsewhere(k, c, d)
    ensures StepFor(k, offer, c, d)
  {
    SoundPart(k, a, c);
    SoundPart(k, b, d);
    if offer.None? { TidyPart(k, a, b, c, d); }
  }

  // ---- Processes under pair locks ------------------------------------------------

  /** A process under a pair lock: what it does to its slot alone, what it may commit and under a cap or not, and how far it has got. */
  datatype Script = Script(trace: seq<Files>, offer: Option<Pair>, capped: bool, at: nat)

  ghost predicate IsScript(k: Slot, offer: Option<Pair>, trace: seq<Files>) { trace != [] && Steps(k, offer, trace, 1) }

  /** The directory, the holder of the capacity lock, and the holders of pair locks. */
  datatype World = World(files: Files, holder: Option<Session>, locks: map<Slot, Script>)

  datatype Move =
    | Locks(k: Slot, trace: seq<Files>, commits: Option<Pair>, capped: bool)   // a process gets the pair lock of the slot
    | Works(k: Slot, next: Files)                              // and does its next step there
    | Unlocks(k: Slot)                                         // it is done, it has raised, or it has died
    | Stages(next: Files)                                      // a compiler writes private files
    | TakesCapacity
    | IsAdmitted(k: Slot, offer: Pair)
    | DropsCapacity

  /** With a cap, the process has been admitted under the capacity lock and still holds it. */
  predicate MayCommit(s: World, k: Slot, offer: Pair, capped: bool) {
    if capped then s.holder == Some(Admitted(k, offer)) else offer.dll.Some?
  }

  ghost predicate Moves(l: Limits, s: World, e: Move, t: World) {
    match e
    case Locks(k, trace, offer, capped) =>
      && k !in s.locks && IsScript(k, offer, trace) && SamePart(k, trace[0], s.files)
      && (offer.Some? ==> MayCommit(s, k, offer.value, capped))
      && t == s.(locks := s.locks[k := Script(trace, offer, capped, 0)])
    case Works(k, next) =>
      && k in s.locks && s.locks[k].at + 1 < |s.locks[k].trace|
      && SamePart(k, s.locks[k].trace[s.locks[k].at + 1], next) && SameElsewhere(k, s.files, next)
      && t == s.(files := next, locks := s.locks[k := s.locks[k].(at := s.locks[k].at + 1)])
    case Unlocks(k) => k in s.locks && t == s.(locks := s.locks - {k})
    case Stages(next) => (forall k: Slot :: SamePart(k, s.files, next)) && t == s.(files := next)
    case TakesCapacity => s.holder == None && t == s.(holder := Some(Scanning))
    case IsAdmitted(k, offer) =>
      && s.holder == Some(Scanning) && AdmittedAt(s.files, l.tiers, l.abi, l.cap, k, offer)
      && t == s.(holder := Some(Admitted(k, offer)))
    case DropsCapacity =>
      && s.holder.Some? && (forall k :: k in s.locks ==> s.locks[k].offer.None? || !s.locks[k].capped)
      && t == s.(holder := None)
  }

  ghost predicate MoveRun(l: Limits, states: seq<World>, moves: seq<Move>) {
    |states| == |moves| + 1 && forall i :: 0 <= i < |moves| ==> Moves(l, states[i], moves[i], states[i+1])
  }

  // ---- What the locks keep ---------------------------------------------------------

  /** The slot is as its holder left it. */
  ghost predicate OnScript(s: World, k: Slot, x: Script) {
    && IsScript(k, x.offer, x.trace) && x.at < |x.trace| && SamePart(k, x.trace[x.at], s.files)
    && (x.offer.Some? ==> MayCommit(s, k, x.offer.value, x.capped))
  }

  ghost predicate Undisturbed(s: World) {
    forall k :: k in s.locks ==> OnScript(s, k, s.locks[k])
  }

  lemma ElsewherePart(k: Slot, j: Slot, trace: Files, a: Files, b: Files)
    requires SameElsewhere(k, a, b) && j != k && SamePart(j, trace, a)
    ensures SamePart(j, trace, b)
  {
    forall p: Path | p.Shard? && p.slot == j ensures FileSha256(trace, p) == FileSha256(b, p) {
      assert FileSha256(trace, p) == FileSha256(a, p);
    }
  }

  /** Nobody changes a slot under its holder: that takes the lock. */
  lemma LocksHold(l: Limits, s: World, e: Move, t: World)
    requires Undisturbed(s) && Moves(l, s, e, t)
    ensures Undisturbed(t)
  {
    forall j | j in t.locks ensures OnScript(t, j, t.locks[j]) {
      if j in s.locks { assert OnScript(s, j, s.locks[j]); }
      match e
      case Locks(k, trace, offer, capped) =>
      case Works(k, next) =>
        if j != k { ElsewherePart(k, j, s.locks[j].trace[s.locks[j].at], s.files, next); }
      case Unlocks(k) =>
      case Stages(next) =>
        forall p: Path | p.Shard? && p.slot == j ensures FileSha256(s.locks[j].trace[s.locks[j].at], p) == FileSha256(next, p) {
          assert SamePart(j, s.files, next);
        }
      case TakesCapacity =>
      case IsAdmitted(k, offer) =>
      case DropsCapacity =>
    }
  }

  // ---- Every move is an event of the capacity system ---------------------------------

  function SystemOf(s: World): System { System(s.files, s.holder) }

  /** The event of a move; taking and leaving a pair lock is none. */
  ghost function EventOf(s: World, e: Move): Option<Event> {
    match e
    case Works(k, next) => Some(
      if k !in s.locks || s.locks[k].offer.None? then Recovers(k, next)
      else if s.locks[k].capped then Transacts(next)
      else Publishes(k, s.locks[k].offer.value, next))
    case Stages(next) => Some(Recovers(Slot(0, ""), next))
    case TakesCapacity => Some(Acquires)
    case IsAdmitted(k, offer) => Some(Admits(k, offer))
    case DropsCapacity => Some(Releases)
    case _ => None
  }

  lemma WorkIsEvent(l: Limits, s: World, k: Slot, next: Files, t: World)
    requires Undisturbed(s) && Moves(l, s, Works(k, next), t)
    ensures Next(l, SystemOf(s), EventOf(s, Works(k, next)).value, SystemOf(t))
  {
    var x := s.locks[k];
    assert OnScript(s, k, x);
    assert StepFor(k, x.offer, x.trace[x.at], x.trace[x.at + 1]);
    StepRelocates(k, x.offer, x.trace[x.at], x.trace[x.at + 1], s.files, next);
  }

  lemma StagingIsEvent(s: World, next: Files)
    requires AllSound(s.files) && forall k: Slot :: SamePart(k, s.files, next)
    ensures Recovering(Slot(0, ""), s.files, next)
  {
    var k := Slot(0, "");
    SoundPart(k, s.files, next);
    TidyPart(k, s.files, s.files, s.files, next);
    forall p: Path | p.Shard? && p.slot != k ensures FileSha256(s.files, p) == FileSha256(next, p) {
      assert SamePart(p.slot, s.files, next);
    }
    forall p | p in s.files && p.Shard? && p.slot != k ensures p in next && next[p] == s.files[p] {
      assert FileSha256(s.files, p) == FileSha256(next, p);
    }
    forall p | p in next && p.Shard? && p.slot != k ensures p in s.files {
      assert FileSha256(s.files, p) == FileSha256(next, p);
    }
  }

  lemma MoveIsEvent(l: Limits, s: World, e: Move, t: World)
    requires Undisturbed(s) && AllSound(s.files) && Moves(l, s, e, t)
    ensures var event := EventOf(s, e);
      if event.Some? then Next(l, SystemOf(s), event.value, SystemOf(t)) else SystemOf(t) == SystemOf(s)
  {
    match e
    case Locks(_, _, _, _) =>
    case Works(k, next) => WorkIsEvent(l, s, k, next, t);
    case Unlocks(_) =>
    case Stages(next) => StagingIsEvent(s, next);
    case TakesCapacity =>
    case IsAdmitted(_, _) =>
    case DropsCapacity =>
  }

  /** Who commits has a cap, and nothing large comes back behind an offer that is admitted. */
  ghost predicate MoveFits(l: Limits, s: World, e: Move) {
    && (e.IsAdmitted? ==> ReturnsNothingLarge(VisibleCache(s.files), l.tiers, l.abi, e.k, e.offer, l.cap))
    && (e.Works? && e.k in s.locks && s.locks[e.k].offer.Some? ==> s.locks[e.k].capped)
  }

  ghost predicate AllMovesFit(l: Limits, states: seq<World>, moves: seq<Move>)
    requires |states| == |moves| + 1
  {
    forall i :: 0 <= i < |moves| ==> MoveFits(l, states[i], moves[i])
  }

  ghost predicate Opens(s: World) { AllSound(s.files) && s.holder == None && s.locks == map[] }

  lemma EventAppended(l: Limits, systems: seq<System>, events: seq<Event>, event: Event, t: System)
    requires Run(l, systems, events) && Next(l, systems[|systems|-1], event, t)
    ensures Run(l, systems + [t], events + [event])
  {
    RunThen(l, systems, events, event, [t], []);
    assert events + [event] + [] == events + [event];
  }

  /** One more move is one more event, or none. */
  lemma OneMove(l: Limits, systems: seq<System>, events: seq<Event>, s: World, e: Move, t: World)
    returns (systems': seq<System>, events': seq<Event>)
    requires Run(l, systems, events) && AllSound(systems[0].files) && systems[0].holder == None
    requires systems[|systems|-1] == SystemOf(s) && Undisturbed(s) && Moves(l, s, e, t)
    ensures Run(l, systems', events') && systems'[0] == systems[0] && systems'[|systems'|-1] == SystemOf(t)
    ensures AllFitBehind(l, systems, events) && MoveFits(l, s, e) ==> AllFitBehind(l, systems', events')
  {
    systems', events' := systems, events;
    var event := EventOf(s, e);
    assert AllSound(s.files) by { RunKeepsSound(l, systems, events, |systems| - 1); }
    MoveIsEvent(l, s, e, t);
    if event.Some? {
      EventAppended(l, systems, events, event.value, SystemOf(t));
      if AllFitBehind(l, systems, events) && MoveFits(l, s, e) {
        assert FitBehind(l)(SystemOf(s), event.value);
        AlwaysAppended(FitBehind(l), systems, events, event.value, SystemOf(t));
      }
      systems', events' := systems + [SystemOf(t)], events + [event.value];
    }
  }

  /** Any number of processes interleaved under their pair locks make a run of the capacity system. */
  lemma {:induction false} MovesAreRun(l: Limits, states: seq<World>, moves: seq<Move>, n: nat)
    returns (systems: seq<System>, events: seq<Event>)
    requires MoveRun(l, states, moves) && n < |states| && Opens(states[0])
    ensures Undisturbed(states[n]) && Run(l, systems, events)
    ensures systems[0] == SystemOf(states[0]) && systems[|systems|-1] == SystemOf(states[n])
    ensures AllMovesFit(l, states, moves) ==> AllFitBehind(l, systems, events)
  {
    if n == 0 {
      systems, events := [SystemOf(states[0])], [];
    } else {
      systems, events := MovesAreRun(l, states, moves, n - 1);
      assert Moves(l, states[n-1], moves[n-1], states[n]);
      LocksHold(l, states[n-1], moves[n-1], states[n]);
      assert AllMovesFit(l, states, moves) ==> MoveFits(l, states[n-1], moves[n-1]);
      systems, events := OneMove(l, systems, events, states[n-1], moves[n-1], states[n]);
    }
  }

  /**
   Over every interleaving of processes under pair locks, with any of them dying at any step: no slot shows mixed
   halves, and when all publishers are capacity-checked they keep every limit.
   */
  lemma InterleavedRunsAreSafe(l: Limits, states: seq<World>, moves: seq<Move>, n: nat, k: Slot)
    requires MoveRun(l, states, moves) && n < |states| && Opens(states[0])
    ensures AllSound(states[n].files)
    ensures Visible(states[n].files, k).dll == None || Visible(states[n].files, k) == Settled(states[n].files, k)
    ensures AllMovesFit(l, states, moves) ==>
      Bounded(UsageIn(CacheOf(states[n].files), l.tiers, l.abi), UsageIn(CacheOf(states[0].files), l.tiers, l.abi), l.cap)
  {
    var systems, events := MovesAreRun(l, states, moves, n);
    RunKeepsSound(l, systems, events, |systems| - 1);
    NoMixedHalvesOverRuns(l, systems, events, |systems| - 1, k);
    if AllMovesFit(l, states, moves) {
      CapacityHoldsOverRuns(l, systems, events, |systems| - 1);
    }
  }

  /** What the verified methods do under a pair lock is such a script. */
  lemma TraceIsScript(k: Slot, offer: Option<Pair>, trace: seq<Files>, from: nat)
    requires 0 < from <= |trace| && Steps(k, offer, trace, from)
    ensures IsScript(k, offer, trace[from-1..])
  {
    var script := trace[from-1..];
    forall i | 1 <= i < |script| ensures StepFor(k, offer, script[i-1], script[i]) {
      assert StepFor(k, offer, trace[from-1+i-1], trace[from-1+i]);
    }
  }

  lemma PartOfSlot(part: Part, k: Slot, a: Files, b: Files)
    requires Covers(part, k) && Agree(part, a, b)
    ensures SamePart(k, a, b)
  {
  }

  /** Two processes leave the same files of the slot at every mutation. */
  ghost predicate Follows(k: Slot, m: Proc, n: Proc) {
    |m.trace| == |n.trace| && forall i :: 0 <= i < |m.trace| ==> SamePart(k, n.trace[i], m.trace[i])
  }

  lemma AlikeFollows(part: Part, k: Slot, m: Proc, n: Proc)
    requires Covers(part, k) && Alike(part, m, n)
    ensures Follows(k, m, n)
  {
    forall i | 0 <= i < |m.trace| ensures SamePart(k, n.trace[i], m.trace[i]) { PartOfSlot(part, k, n.trace[i], m.trace[i]); }
  }

  /**
   A process keeps to its script. In any setting `w`, whatever the others do to the rest at each of its mutations, it
   leaves the files of its slot that it leaves in a setting where nobody else does anything.
   */
  lemma ScriptIsFollowed(part: Part, w: Setting, v: Setting, m: Proc, n: Proc, k: Slot, stagedDll: Path, stagedRanges: Path, token: string)
    requires Deciding(part, w, v) && Alike(part, m, n) && Covers(part, k) && part(stagedDll) && part(stagedRanges)
    ensures Follows(k, Recovered(w, m, k).proc, Recovered(v, n, k).proc)
    ensures Follows(k, Committed(w, m, k, stagedDll, stagedRanges, token).proc, Committed(v, n, k, stagedDll, stagedRanges, token).proc)
    ensures Recovered(w, m, k).outcome == Recovered(v, n, k).outcome
    ensures Committed(w, m, k, stagedDll, stagedRanges, token).outcome == Committed(v, n, k, stagedDll, stagedRanges, token).outcome
  {
    RecoveryIsItsOwn(part, w, v, m, n, k);
    AlikeFollows(part, k, Recovered(w, m, k).proc, Recovered(v, n, k).proc);
    TransactionIsItsOwn(part, w, v, m, n, k, stagedDll, stagedRanges, token);
    AlikeFollows(part, k, Committed(w, m, k, stagedDll, stagedRanges, token).proc,
                 Committed(v, n, k, stagedDll, stagedRanges, token).proc);
  }

  /**
   What the lock keeps out: a publisher journals, moves the old pair aside and installs its manifest; another process
   recovers the slot to its end; the publisher's last rename then shows the new DLL beside the old manifest.
   */
  method LockIsNeeded(disk: Disk, k: Slot, stagedDll: Path, stagedRanges: Path, token: string) returns (o: Outcome)
    requires disk.Valid() && Staged(stagedDll) && Staged(stagedRanges) && stagedDll != stagedRanges
    requires IsToken(token) && Shard(k, Journal) !in disk.files && stagedDll in disk.files && stagedRanges in disk.files
    requires forall n :: disk.fate(n) == Obeyed
    modifies disk
    ensures o == Done && Visible(disk.files, k)
      == Pair(FileSha256(old(disk.files), stagedDll), Visible(old(disk.files), k).ranges)
  {
    var t := TxnOf(disk.files, k, stagedDll, stagedRanges, token);
    JournalStep(disk.files, k, t, stagedDll, stagedRanges);
    o := disk.WriteAtomic(Shard(k, Journal), Record(t));
    o := HideOldHalves(disk, k, t, stagedDll, stagedRanges);
    NewRangesStep(disk.files, k, t, stagedDll, stagedRanges);
    o := disk.Replace(stagedRanges, Shard(k, Ranges));
    assert FileSha256(disk.files, stagedDll) == t.newDll;
    o := RecoverShardPairLocked(disk, k);
    o := disk.Replace(stagedDll, Shard(k, Dll));
  }
}
