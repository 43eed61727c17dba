/**
 Whole runs: any number of processes publishing and recovering in one namespace,
 interleaved step by step, any of them dying at any point.
 */
module CacheRuns {
  import opened Prelude
  import opened ShardStore
  import opened PairPublication
  import opened CacheInventory
  import opened CachePublication

  // ---- One slot: an atomic register --------------------------------------

  /** A step that commits one of the offers. */
  ghost predicate CommitsSome(k: Slot, offers: set<Pair>, a: Files, b: Files) {
    Sound(a, k) && Sound(b, k) && Settled(b, k) in offers && SameElsewhere(k, a, b)
  }

  /** Every step of the slot is silent or commits one of the offers. */
  ghost predicate SlotRun(k: Slot, trace: seq<Files>, offers: set<Pair>) {
    forall i :: 0 < i < |trace| ==>
      Stutter(k, trace[i-1], trace[i]) || CommitsSome(k, offers, trace[i-1], trace[i])
  }

  /**
   For every run and every instant in it: the DLL is absent or the visible pair is whole,
   and it is the first pair or one that was offered.
   */
  lemma {:induction false} VisiblePairIsWhole(k: Slot, trace: seq<Files>, offers: set<Pair>, n: nat)
    requires n < |trace| && SlotRun(k, trace, offers) && Sound(trace[0], k)
    ensures Sound(trace[n], k)
    ensures Settled(trace[n], k) == Settled(trace[0], k) || Settled(trace[n], k) in offers
    ensures Visible(trace[n], k).dll == None || Visible(trace[n], k) == Settled(trace[0], k)
            || Visible(trace[n], k) in offers
  {
    if n > 0 {
      VisiblePairIsWhole(k, trace, offers, n - 1);
      assert Stutter(k, trace[n-1], trace[n]) || CommitsSome(k, offers, trace[n-1], trace[n]);
    }
    NeverMixed(trace[n], k);
  }

  /** One process working on the slot: it stages and publishes a pair, or only recovers. */
  datatype Attempt = Publish(dll: Content, ranges: Content, token: string) | Recover

  function OfferOf(a: Attempt): Pair
    requires a.Publish?
  {
    Pair(Some(Sha256(a.dll)), Some(Sha256(a.ranges)))
  }

  function OffersOf(attempts: seq<Attempt>): set<Pair> {
    set a | a in attempts && a.Publish? :: OfferOf(a)
  }

  lemma StageStep(k: Slot, a: Files, p: Path, c: Content)
    requires p.Scratch? && Sound(a, k)
    ensures Stutter(k, a, a[p := c])
  {
  }

  lemma RunExtends(k: Slot, trace: seq<Files>, longer: seq<Files>, offers: set<Pair>, offer: Option<Pair>)
    requires |trace| > 0 && trace <= longer && SlotRun(k, trace, offers)
    requires Steps(k, offer, longer, |trace|) && (offer.Some? ==> offer.value in offers)
    ensures SlotRun(k, longer, offers)
  {
    forall i | 0 < i < |longer|
      ensures Stutter(k, longer[i-1], longer[i]) || CommitsSome(k, offers, longer[i-1], longer[i])
    {
      if i < |trace| {
        assert longer[i-1] == trace[i-1] && longer[i] == trace[i];
      }
    }
  }

  const STAGED_DLL := Scratch("dll")
  const STAGED_RANGES := Scratch("ranges")

  /** The compiler's output, in private names. */
  method Stage(disk: Disk, k: Slot, a: Attempt) returns (o: Outcome)
    requires disk.Valid() && Sound(disk.files, k) && a.Publish?
    modifies disk
    ensures disk.Valid() && old(disk.trace) <= disk.trace && Sound(disk.files, k)
    ensures disk.Since(|old(disk.trace)|, k, Some(OfferOf(a)))
    ensures o == Done ==> Offer(disk.files, STAGED_DLL, STAGED_RANGES) == OfferOf(a)
    ensures o == Done || o == Raised(OsError) || o == Died
    ensures (forall n :: disk.fate(n) == Obeyed) ==> o == Done
  {
    StageStep(k, disk.files, STAGED_DLL, a.dll);
    o := disk.WriteAtomic(STAGED_DLL, a.dll);
    if o != Done { return; }
    ghost var t1 := disk.trace;
    StageStep(k, disk.files, STAGED_RANGES, a.ranges);
    o := disk.WriteAtomic(STAGED_RANGES, a.ranges);
    StepsSnoc(k, Some(OfferOf(a)), t1, |old(disk.trace)|, disk.files);
  }

  /** One attempt, to its end or to its death.  The offer is `a`'s own pair whenever a commit is tried. */
  method RunAttempt(disk: Disk, k: Slot, a: Attempt) returns (o: Outcome)
    requires disk.Valid() && Sound(disk.files, k) && (a.Publish? ==> IsToken(a.token))
    modifies disk
    ensures disk.Valid() && old(disk.trace) <= disk.trace && Sound(disk.files, k)
    ensures disk.Since(|old(disk.trace)|, k, if a.Publish? then Some(OfferOf(a)) else None)
    ensures o == Done && a.Publish? ==> Visible(disk.files, k) == OfferOf(a)
    ensures o == Done && a.Recover? ==> Visible(disk.files, k) == Settled(old(disk.files), k)
    ensures a.Recover? ==> Settled(disk.files, k) == Settled(old(disk.files), k)
    ensures o == Done || o == Raised(OsError) || o == Died
    ensures (forall n :: disk.fate(n) == Obeyed) ==> o == Done
  {
    if a.Recover? {
      o := RecoverShardPairLocked(disk, k);
      return;
    }
    ghost var offer, from := Some(OfferOf(a)), |disk.trace|;
    o := Stage(disk, k, a);
    if o != Done { return; }
    ghost var t2 := disk.trace;
    o := RecoverShardPairLocked(disk, k);
    StepsWeaken(k, offer, disk.trace, |t2|);
    StepsJoin(k, offer, t2, disk.trace, from);
    if o != Done { return; }
    ghost var t3 := disk.trace;
    assert Offer(disk.files, STAGED_DLL, STAGED_RANGES) == OfferOf(a);
    o := CommitStagedPair(disk, k, STAGED_DLL, STAGED_RANGES, a.token);
    StepsJoin(k, offer, t3, disk.trace, from);
  }

  /**
   Any sequence of publications and recoveries of one slot, each of which may be refused
   or die at any step.  No instant of the whole run shows mixed halves, the published
   pairs are the only ones ever visible, and a recovery that runs to its end shows
   exactly the pair the slot stood for when it began.
   */
  method CrashyRun(disk: Disk, k: Slot, attempts: seq<Attempt>) returns (outcomes: seq<Outcome>)
    requires disk.Valid() && disk.trace == [disk.files] && Sound(disk.files, k)
    requires forall a :: a in attempts && a.Publish? ==> IsToken(a.token)
    modifies disk
    ensures disk.Valid() && |outcomes| == |attempts|
    ensures forall i :: 0 <= i < |disk.trace| ==>
      Visible(disk.trace[i], k).dll == None
      || Visible(disk.trace[i], k) == Settled(old(disk.files), k)
      || Visible(disk.trace[i], k) in OffersOf(attempts)
    ensures forall i :: 0 <= i < |outcomes| ==>
      outcomes[i] == Done || outcomes[i] == Raised(OsError) || outcomes[i] == Died
    ensures |attempts| > 0 && outcomes[|attempts|-1] == Done ==>
      Visible(disk.files, k) == Settled(old(disk.files), k) || Visible(disk.files, k) in OffersOf(attempts)
  {
    ghost var offers := OffersOf(attempts);
    outcomes := [];
    var i := 0;
    while i < |attempts|
      invariant 0 <= i == |outcomes| <= |attempts|
      invariant disk.Valid() && disk.trace[0] == old(disk.files)
      invariant SlotRun(k, disk.trace, offers) && Sound(disk.files, k)
      invariant Settled(disk.files, k) == Settled(old(disk.files), k) || Settled(disk.files, k) in offers
      invariant forall j :: 0 <= j < i ==> outcomes[j] == Done || outcomes[j] == Raised(OsError) || outcomes[j] == Died
      invariant i > 0 && outcomes[i-1] == Done ==>
        Visible(disk.files, k) == Settled(old(disk.files), k) || Visible(disk.files, k) in offers
    {
      ghost var seen := disk.trace;
      var o := RunAttempt(disk, k, attempts[i]);
      assert attempts[i] in attempts;
      RunExtends(k, seen, disk.trace, offers, if attempts[i].Publish? then Some(OfferOf(attempts[i])) else None);
      VisiblePairIsWhole(k, disk.trace, offers, |disk.trace| - 1);
      outcomes := outcomes + [o];
      i := i + 1;
    }
    forall n | 0 <= n < |disk.trace|
      ensures Visible(disk.trace[n], k).dll == None || Visible(disk.trace[n], k) == Settled(old(disk.files), k)
              || Visible(disk.trace[n], k) in offers
    {
      VisiblePairIsWhole(k, disk.trace, offers, n);
    }
  }

  // ---- The namespace under capacity-checked publishers -------------------

  /** The holder of the capacity lock has recovered the namespace, or has been admitted. */
  datatype Session = Scanning | Admitted(k: Slot, offer: Pair)

  datatype System = System(files: Files, holder: Option<Session>)

  datatype Limits = Limits(tiers: nat, abi: Option<nat>, cap: nat)

  datatype Event =
    | Recovers(k: Slot, next: Files)      // any process, one step of a recovery under its pair lock
    | Acquires                            // a publisher takes the capacity lock
    | Admits(k: Slot, offer: Pair)        // inventory, projection and a fitting verdict
    | Transacts(next: Files)              // one step of the admitted publisher's transaction
    | Releases                            // the publisher returns, raises or dies
    | Publishes(k: Slot, offer: Pair, next: Files)   // one step of a publisher without a cap, under its pair lock

  ghost predicate Next(l: Limits, s: System, e: Event, t: System) {
    match e
    case Recovers(k, next) => Recovering(k, s.files, next) && t == s.(files := next)
    case Acquires => s.holder == None && t == s.(holder := Some(Scanning))
    case Admits(k, offer) =>
      && s.holder == Some(Scanning) && AdmittedAt(s.files, l.tiers, l.abi, l.cap, k, offer)
      && t == s.(holder := Some(Admitted(k, offer)))
    case Transacts(next) =>
      && s.holder.Some? && s.holder.value.Admitted?
      && StepFor(s.holder.value.k, Some(s.holder.value.offer), s.files, next)
      && t == s.(files := next)
    case Releases => s.holder.Some? && t == s.(holder := None)
    case Publishes(k, offer, next) => offer.dll.Some? && StepFor(k, Some(offer), s.files, next) && t == s.(files := next)
  }

  ghost predicate Run(l: Limits, states: seq<System>, events: seq<Event>) {
    |states| == |events| + 1 && forall i :: 0 <= i < |events| ==> Next(l, states[i], events[i], states[i+1])
  }

  /** Publishers have a cap, and nothing large comes back behind an admitted offer; the verdict cannot see that. */
  ghost predicate FitsBehind(l: Limits, s: System, e: Event) {
    !e.Publishes? && (e.Admits? ==> ReturnsNothingLarge(VisibleCache(s.files), l.tiers, l.abi, e.k, e.offer, l.cap))
  }

  type Condition = (System, Event) -> bool

  ghost function FitBehind(l: Limits): Condition { (s: System, e: Event) => FitsBehind(l, s, e) }

  /** The condition holds at every event. */
  predicate Always(fits: Condition, states: seq<System>, events: seq<Event>)
    requires |states| == |events| + 1
  {
    forall i :: 0 <= i < |events| ==> fits(states[i], events[i])
  }

  lemma AlwaysAppended(fits: Condition, states: seq<System>, events: seq<Event>, event: Event, t: System)
    requires |states| == |events| + 1 && Always(fits, states, events) && fits(states[|states|-1], event)
    ensures Always(fits, states + [t], events + [event])
  {
  }

  ghost predicate AllFitBehind(l: Limits, states: seq<System>, events: seq<Event>)
    requires |states| == |events| + 1
  {
    Always(FitBehind(l), states, events)
  }

  // ---- No mixed halves ------------------------------------------------------

  lemma StepKeepsSound(l: Limits, s: System, e: Event, t: System)
    requires AllSound(s.files) && Next(l, s, e, t)
    requires s.holder.Some? && s.holder.value.Admitted? ==> s.holder.value.offer.dll.Some?
    ensures AllSound(t.files)
    ensures t.holder.Some? && t.holder.value.Admitted? ==> t.holder.value.offer.dll.Some?
  {
    match e
    case Recovers(k, next) => StutterKeepsCache(k, s.files, next);
    case Acquires =>
    case Admits(_, _) =>
    case Transacts(next) =>
      var k, offer := s.holder.value.k, s.holder.value.offer;
      if Stutter(k, s.files, next) {
        StutterKeepsCache(k, s.files, next);
      } else {
        CommitInstalls(k, offer, s.files, next);
      }
    case Releases =>
    case Publishes(k, offer, next) =>
      if Stutter(k, s.files, next) {
        StutterKeepsCache(k, s.files, next);
      } else {
        CommitInstalls(k, offer, s.files, next);
      }
  }

  lemma {:induction false} RunKeepsSound(l: Limits, states: seq<System>, events: seq<Event>, n: nat)
    requires Run(l, states, events) && n < |states|
    requires AllSound(states[0].files) && states[0].holder == None
    ensures AllSound(states[n].files)
    ensures states[n].holder.Some? && states[n].holder.value.Admitted? ==> states[n].holder.value.offer.dll.Some?
  {
    if n > 0 {
      RunKeepsSound(l, states, events, n - 1);
      StepKeepsSound(l, states[n-1], events[n-1], states[n]);
    }
  }

  /** Whatever publishers, with a cap or without, and recoveries do and wherever they die, no slot ever shows mixed halves. */
  lemma NoMixedHalvesOverRuns(l: Limits, states: seq<System>, events: seq<Event>, n: nat, k: Slot)
    requires Run(l, states, events) && n < |states|
    requires AllSound(states[0].files) && states[0].holder == None
    ensures Sound(states[n].files, k)
    ensures Visible(states[n].files, k).dll == None || Visible(states[n].files, k) == Settled(states[n].files, k)
  {
    RunKeepsSound(l, states, events, n);
    NeverMixed(states[n].files, k);
  }

  // ---- The limits -----------------------------------------------------------

  ghost predicate WithinLimits(l: Limits, start: Usage, s: System) {
    && AllSound(s.files)
    && Bounded(UsageIn(CacheOf(s.files), l.tiers, l.abi), start, l.cap)
    && (s.holder.Some? && s.holder.value.Admitted? ==>
        && s.holder.value.offer.dll.Some?
        && Bounded(UsageIn(CacheOf(s.files)[s.holder.value.k := s.holder.value.offer], l.tiers, l.abi), start, l.cap))
  }

  lemma BoundedTransitive(u: Usage, v: Usage, start: Usage, cap: nat)
    requires Bounded(u, v, cap) && Bounded(v, start, cap)
    ensures Bounded(u, start, cap)
  {
  }

  lemma SuccessorOfVisible(v: Cache, c: Cache, tiers: nat, abi: Option<nat>, k: Slot)
    requires forall j: Slot :: Indexed(v, tiers, abi, j) <==> Indexed(c, tiers, abi, j)
    ensures Successor(v, tiers, abi, k) == Successor(c, tiers, abi, k)
  {
    var t, u := FirstIndexed(v, tiers, abi, k.name, k.tier + 1), FirstIndexed(c, tiers, abi, k.name, k.tier + 1);
    if t.Some? { assert Indexed(c, tiers, abi, Slot(t.value, k.name)); }
    if u.Some? { assert Indexed(v, tiers, abi, Slot(u.value, k.name)); }
  }

  lemma CountedOnDisk(files: Files, tiers: nat, k: Slot)
    requires AllSound(files) && NonePending(files, tiers) && k.tier < tiers && CanonicalName(k.name)
    ensures k in VisibleCache(files) <==> k in CacheOf(files)
    ensures k in CacheOf(files) ==> VisibleCache(files)[k] == CacheOf(files)[k]
  {
    CacheMember(files, k);
    assert !Pending(files, tiers, k);
    if Shard(k, Dll) in files { assert Shard(k, Dll).slot in DllSlots(files); }
  }

  lemma IndexedOnDisk(files: Files, tiers: nat, abi: Option<nat>)
    requires AllSound(files) && NonePending(files, tiers)
    ensures forall j: Slot :: Indexed(VisibleCache(files), tiers, abi, j) <==> Indexed(CacheOf(files), tiers, abi, j)
  {
    forall j: Slot | j.tier < tiers && CanonicalName(j.name)
      ensures Indexed(VisibleCache(files), tiers, abi, j) <==> Indexed(CacheOf(files), tiers, abi, j)
    {
      CountedOnDisk(files, tiers, j);
    }
  }

  /** What the publisher reads on disk decides about the recovered cache. */
  lemma ReturnsOnDisk(files: Files, tiers: nat, abi: Option<nat>, k: Slot, offer: Pair, cap: nat)
    requires AllSound(files) && NonePending(files, tiers)
    requires ReturnsNothingLarge(VisibleCache(files), tiers, abi, k, offer, cap)
    ensures ReturnsNothingLarge(CacheOf(files), tiers, abi, k, offer, cap)
  {
    var v, c := VisibleCache(files), CacheOf(files);
    IndexedOnDisk(files, tiers, abi);
    SelectionOfVisible(files, tiers, abi);
    SuccessorOfVisible(v, c, tiers, abi, k);
    var next := Successor(c, tiers, abi, k);
    if next.Some? { CountedOnDisk(files, tiers, next.value); }
  }

  lemma AdmitKeepsLimits(l: Limits, start: Usage, s: System, k: Slot, offer: Pair)
    requires WithinLimits(l, start, s) && AdmittedAt(s.files, l.tiers, l.abi, l.cap, k, offer)
    requires ReturnsNothingLarge(VisibleCache(s.files), l.tiers, l.abi, k, offer, l.cap)
    ensures Bounded(UsageIn(CacheOf(s.files)[k := offer], l.tiers, l.abi), start, l.cap)
  {
    var c := CacheOf(s.files);
    SelectionOfVisible(s.files, l.tiers, l.abi);
    ReturnsOnDisk(s.files, l.tiers, l.abi, k, offer, l.cap);
    AdmissionExactly(c, l.tiers, l.abi, k, offer, l.cap);
    BoundedTransitive(UsageIn(c[k := offer], l.tiers, l.abi), UsageIn(c, l.tiers, l.abi), start, l.cap);
  }

  lemma StutterKeepsLimits(l: Limits, start: Usage, s: System, k: Slot, next: Files)
    requires WithinLimits(l, start, s) && Stutter(k, s.files, next)
    ensures WithinLimits(l, start, s.(files := next))
  {
    StutterKeepsCache(k, s.files, next);
  }

  lemma CommitKeepsLimits(l: Limits, start: Usage, s: System, k: Slot, offer: Pair, next: Files)
    requires WithinLimits(l, start, s) && s.holder == Some(Admitted(k, offer)) && Commit(k, offer, s.files, next)
    ensures WithinLimits(l, start, s.(files := next))
  {
    assert AllSound(next) && CacheOf(next) == CacheOf(s.files)[k := offer] by {
      CommitInstalls(k, offer, s.files, next);
    }
    InstalledAgain(CacheOf(s.files), k, offer);
  }

  lemma InstalledAgain(c: map<Slot, Pair>, k: Slot, offer: Pair)
    ensures c[k := offer][k := offer] == c[k := offer]
  {
  }

  /** No event of the system breaks a bound. */
  lemma StepKeepsLimits(l: Limits, start: Usage, s: System, e: Event, t: System)
    requires WithinLimits(l, start, s) && Next(l, s, e, t) && FitsBehind(l, s, e)
    ensures WithinLimits(l, start, t)
  {
    match e
    case Recovers(k, next) =>
      StutterKeepsLimits(l, start, s, k, next);
    case Acquires =>
    case Admits(k, offer) =>
      AdmitKeepsLimits(l, start, s, k, offer);
    case Transacts(next) =>
      var k, offer := s.holder.value.k, s.holder.value.offer;
      if Stutter(k, s.files, next) {
        StutterKeepsLimits(l, start, s, k, next);
      } else {
        CommitKeepsLimits(l, start, s, k, offer, next);
      }
    case Releases =>
  }

  /**
   Over every interleaving and crash of capacity-checked publishers and of recoveries, each of the four measures
   of the recovered cache stays at most its limit or its starting value, whichever is larger, as long as no
   publisher takes a visible copy away in front of one that does not fit.
   */
  lemma {:induction false} CapacityHoldsOverRuns(l: Limits, states: seq<System>, events: seq<Event>, n: nat)
    requires Run(l, states, events) && AllFitBehind(l, states, events) && n < |states|
    requires AllSound(states[0].files) && states[0].holder == None
    ensures AllSound(states[n].files)
    ensures WithinLimits(l, UsageIn(CacheOf(states[0].files), l.tiers, l.abi), states[n])
    ensures Bounded(UsageIn(CacheOf(states[n].files), l.tiers, l.abi),
                    UsageIn(CacheOf(states[0].files), l.tiers, l.abi), l.cap)
  {
    if n > 0 {
      CapacityHoldsOverRuns(l, states, events, n - 1);
      assert FitBehind(l)(states[n-1], events[n-1]);
      StepKeepsLimits(l, UsageIn(CacheOf(states[0].files), l.tiers, l.abi), states[n-1], events[n-1], states[n]);
    }
  }

  // ---- The scan under the capacity lock -------------------------------------

  lemma CountedStays(files: Files, next: Files, tiers: nat, k: Slot, j: Slot)
    requires NonePending(files, tiers) && Recovering(k, files, next) && j.tier < tiers && CanonicalName(j.name)
    ensures Shard(j, Journal) !in next && Visible(next, j) == Visible(files, j)
  {
    assert !Pending(files, tiers, j);
    if j == k { assert !IsDebris(k, Shard(k, Dll)) && !IsDebris(k, Shard(k, Ranges)); }
  }

  /**
   A scan reads the namespace file by file. Once it has no journal left, the recoveries that others run
   meanwhile change nothing that the scan may read; only publishers without a cap do not wait for it.
   */
  lemma ScanIsStable(l: Limits, s: System, e: Event, t: System)
    requires AllSound(s.files) && NonePending(s.files, l.tiers) && Next(l, s, e, t)
    requires s.holder == Some(Scanning) && t.holder == Some(Scanning) && !e.Publishes?
    ensures AllSound(t.files) && CacheOf(t.files) == CacheOf(s.files) && NonePending(t.files, l.tiers)
    ensures forall j: Slot :: j.tier < l.tiers && CanonicalName(j.name) ==> Visible(t.files, j) == Visible(s.files, j)
  {
    match e
    case Recovers(k, next) =>
      StutterKeepsCache(k, s.files, next);
      forall j: Slot | j.tier < l.tiers && CanonicalName(j.name)
        ensures Shard(j, Journal) !in next && Visible(next, j) == Visible(s.files, j)
      {
        CountedStays(s.files, next, l.tiers, k, j);
      }
    case Acquires =>
    case Admits(_, _) =>
    case Transacts(_) =>
    case Releases =>
  }

  // ---- The code's own traces are runs ---------------------------------------

  ghost predicate FollowsTrace(states: seq<System>, trace: seq<Files>, from: nat, n: nat, holder: Option<Session>) {
    && 0 < from <= n <= |trace| && |states| == n - from + 1
    && forall i :: 0 <= i < |states| ==> states[i] == System(trace[from-1+i], holder)
  }

  lemma {:induction false} RecoveriesAreRun(l: Limits, trace: seq<Files>, from: nat, n: nat, holder: Option<Session>)
    returns (states: seq<System>, events: seq<Event>)
    requires 0 < from <= n <= |trace| && Recoveries(trace, from)
    ensures Run(l, states, events) && FollowsTrace(states, trace, from, n, holder)
    decreases n
  {
    if n == from {
      states, events := [System(trace[from-1], holder)], [];
    } else {
      states, events := RecoveriesAreRun(l, trace, from, n - 1, holder);
      assert RecoversSome(trace[n-2], trace[n-1]);
      var k :| Recovering(k, trace[n-2], trace[n-1]);
      states, events := states + [System(trace[n-1], holder)], events + [Recovers(k, trace[n-1])];
    }
  }

  lemma {:induction false} TransactionIsRun(l: Limits, trace: seq<Files>, from: nat, n: nat, k: Slot, offer: Pair)
    returns (states: seq<System>, events: seq<Event>)
    requires 0 < from <= n <= |trace| && Steps(k, Some(offer), trace, from)
    ensures Run(l, states, events) && FollowsTrace(states, trace, from, n, Some(Admitted(k, offer)))
    decreases n
  {
    var holder := Some(Admitted(k, offer));
    if n == from {
      states, events := [System(trace[from-1], holder)], [];
    } else {
      states, events := TransactionIsRun(l, trace, from, n - 1, k, offer);
      assert StepFor(k, Some(offer), trace[n-2], trace[n-1]);
      states, events := states + [System(trace[n-1], holder)], events + [Transacts(trace[n-1])];
    }
  }

  lemma RunThen(l: Limits, s1: seq<System>, e1: seq<Event>, e: Event, s2: seq<System>, e2: seq<Event>)
    requires Run(l, s1, e1) && Run(l, s2, e2) && Next(l, s1[|s1|-1], e, s2[0])
    ensures Run(l, s1 + s2, e1 + [e] + e2)
  {
    var states, events := s1 + s2, e1 + [e] + e2;
    forall i | 0 <= i < |events| ensures Next(l, states[i], events[i], states[i+1]) {
      if i < |e1| {
        assert Next(l, s1[i], e1[i], s1[i+1]);
      } else if i > |e1| {
        assert Next(l, s2[i-|s1|], e2[i-|s1|], s2[i-|s1|+1]);
      }
    }
  }

  ghost predicate FromTo(states: seq<System>, a: Files, b: Files) {
    states != [] && states[0] == System(a, None) && states[|states|-1] == System(b, None)
  }

  /** Taking the lock and recovering the namespace. */
  lemma ScanIsRun(l: Limits, trace: seq<Files>, from: nat, m: nat) returns (states: seq<System>, events: seq<Event>)
    requires 0 < from <= m <= |trace| && Recoveries(trace[..m], from)
    ensures Run(l, states, events) && states[0] == System(trace[from-1], None)
    ensures states[|states|-1] == System(trace[m-1], Some(Scanning))
  {
    var s1, e1 := RecoveriesAreRun(l, trace[..m], from, m, Some(Scanning));
    var s0 := [System(trace[from-1], None)];
    RunThen(l, s0, [], Acquires, s1, e1);
    states, events := s0 + s1, [] + [Acquires] + e1;
  }

  lemma AdmissionIsEvent(l: Limits, files: Files, k: Slot, offer: Pair)
    requires AdmittedAt(files, l.tiers, l.abi, l.cap, k, offer)
    ensures Next(l, System(files, Some(Scanning)), Admits(k, offer), System(files, Some(Admitted(k, offer))))
  {
  }

  /** An admission and its transaction. */
  lemma CommitIsRun(l: Limits, trace: seq<Files>, m: nat, k: Slot, offer: Pair) returns (states: seq<System>, events: seq<Event>)
    requires 0 < m <= |trace| && Steps(k, Some(offer), trace, m)
    requires Next(l, System(trace[m-1], Some(Scanning)), Admits(k, offer), System(trace[m-1], Some(Admitted(k, offer))))
    ensures Run(l, states, events) && states[0] == System(trace[m-1], Some(Scanning))
    ensures states[|states|-1] == System(trace[|trace|-1], Some(Admitted(k, offer)))
  {
    var s2, e2 := TransactionIsRun(l, trace, m, |trace|, k, offer);
    var s1 := [System(trace[m-1], Some(Scanning))];
    RunThen(l, s1, [], Admits(k, offer), s2, e2);
    states, events := s1 + s2, [] + [Admits(k, offer)] + e2;
  }

  /** Everything after the scan, up to the release. */
  lemma RestIsRun(l: Limits, trace: seq<Files>, from: nat, m: nat, k: Slot, offer: Pair)
    returns (states: seq<System>, events: seq<Event>)
    requires Phases(trace, from, m, l.tiers, l.abi, l.cap, k, offer)
    ensures Run(l, states, events) && states[0] == System(trace[m-1], Some(Scanning))
    ensures states[|states|-1].files == trace[|trace|-1] && states[|states|-1].holder.Some?
  {
    if Recoveries(trace, m) {
      states, events := RecoveriesAreRun(l, trace, m, |trace|, Some(Scanning));
    } else {
      AdmissionIsEvent(l, trace[m-1], k, offer);
      states, events := CommitIsRun(l, trace, m, k, offer);
    }
  }

  /** What publish_shard_pair under the capacity lock does to the directory, step by step, is a run of the system. */
  lemma PublicationIsRun(l: Limits, trace: seq<Files>, from: nat, k: Slot, offer: Pair)
    returns (states: seq<System>, events: seq<Event>)
    requires IsPublication(trace, from, l.tiers, l.abi, l.cap, k, offer)
    ensures Run(l, states, events) && 0 < from <= |trace| && FromTo(states, trace[from-1], trace[|trace|-1])
  {
    var m :| Phases(trace, from, m, l.tiers, l.abi, l.cap, k, offer);
    var s1, e1 := ScanIsRun(l, trace, from, m);
    var s2, e2 := RestIsRun(l, trace, from, m, k, offer);
    JoinRuns(l, s1, e1, s2, e2);
    states, events := s1 + s2[1..], e1 + e2;
    assert states[|states|-1] == s2[|s2|-1];
    var done := [System(trace[|trace|-1], None)];
    RunThen(l, states, events, Releases, done, []);
    states, events := states + done, events + [Releases] + [];
  }

  lemma JoinRuns(l: Limits, s1: seq<System>, e1: seq<Event>, s2: seq<System>, e2: seq<Event>)
    requires Run(l, s1, e1) && Run(l, s2, e2) && s1[|s1|-1] == s2[0]
    ensures Run(l, s1 + s2[1..], e1 + e2)
  {
    var states, events := s1 + s2[1..], e1 + e2;
    forall i | 0 <= i < |events| ensures Next(l, states[i], events[i], states[i+1]) {
      if i < |e1| {
        assert Next(l, s1[i], e1[i], s1[i+1]);
      } else {
        assert Next(l, s2[i-|e1|], e2[i-|e1|], s2[i-|e1|+1]);
      }
    }
  }
}
