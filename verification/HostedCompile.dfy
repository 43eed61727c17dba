/**
 The retry tree of compile_batched_hosted_aliases, run against arbitrary callbacks: every answer is a function of the
 number of callbacks made before it.  A log keeps every compile request with what the callbacks said of it.
 */
module HostedCompile {
  import opened Prelude
  import opened Sorting
  import opened Manifest
  import opened HostedBatches

  // ---- What a run leaves behind ------------------------------------------

  /** Without identities there are the replies of should_bisect, with them what on_success says of the requested targets. */
  datatype Answer =
    | Pending
    | Failed(replies: seq<bool>)
    | Silent
    | Served(served: set<int>)

  /** One compile: its batch, the moment it was made, and its answer. */
  datatype Request = Request(groups: seq<Group>, at: nat, answer: Answer) {
    function Targets(): set<int> { TargetsOf(groups) }

    /** It failed and was not split any further. */
    predicate Undivided() {
      && answer.Failed? && groups != []
      && (|groups| > 1 ==> answer.replies != [] && !answer.replies[0])
      && (|groups[0].targets| > 1 ==> answer.replies != [] && !answer.replies[|answer.replies|-1])
    }

    /** Its failure concerns the target: nothing was served, or the first host was not split. */
    predicate Fails(t: int) {
      (answer == Served({}) && t in Targets()) || (Undivided() && t in groups[0].targets)
    }

    /** It failed, its hosts were not split apart, and the target is not of the first. */
    predicate Abandons(t: int) {
      answer.Failed? && |groups| > 1 && answer.replies != [] && !answer.replies[0] && t in TargetsOf(groups[1..])
    }
  }

  /**
   The requests in order; the targets said to be unneeded, those given to on_singleton_failure and to on_batch_failure,
   and those without an outcome: the run was stopped, the cap was reached, or another host of a failed request came first.
   */
  datatype Log = Log(requests: seq<Request>, unneeded: set<int>, singles: set<int>, batches: set<int>,
                     stopped: set<int>, capped: set<int>, abandoned: set<int>)

  const NOTHING := Log([], {}, {}, {}, {}, {}, {})

  /** How many requests came back with identities. */
  function Built(requests: seq<Request>): nat {
    if requests == [] then 0
    else Built(requests[..|requests|-1]) + if requests[|requests|-1].answer.Failed? then 0 else 1
  }

  ghost predicate Grows(a: Log, b: Log) {
    && a.requests <= b.requests && a.unneeded <= b.unneeded && a.singles <= b.singles && a.batches <= b.batches
    && a.stopped <= b.stopped && a.capped <= b.capped && a.abandoned <= b.abandoned
  }

  /** The request holds all of the part that is still needed, and nothing else. */
  predicate Covers(r: Request, part: set<int>, unneeded: set<int>) { r.Targets() <= part <= r.Targets() + unneeded }

  /** One request at or behind `from` is made for the part, unless nothing of it is needed, or the run stops or is capped. */
  ghost predicate Asked(l: Log, from: nat, part: set<int>) {
    || part <= l.unneeded || part <= l.stopped || part <= l.unneeded + l.capped
    || exists j :: from <= j < |l.requests| && Covers(l.requests[j], part, l.unneeded)
  }

  predicate Reported(l: Log, batches: bool, targets: set<int>) { targets <= if batches then l.batches else l.singles }

  /** A failed request is split between hosts, else between the targets of its first host, else reported. */
  ghost predicate AfterFailure(l: Log, i: nat, groups: seq<Group>, replies: seq<bool>, batches: bool) {
    groups != [] &&
    var first := groups[0].targets;
    if |groups| > 1 && replies == [true] then
      Asked(l, i + 1, TargetsOf(groups[..|groups|/2])) && Asked(l, i + 1, TargetsOf(groups[|groups|/2..]))
    else
      && TargetsOf(groups[1..]) <= l.abandoned
      && (|groups| > 1 ==> replies != [] && !replies[0])
      && |replies| == (if |groups| > 1 then 1 else 0) + (if |first| > 1 then 1 else 0)
      && if |first| > 1 && replies[|replies|-1] then
           Asked(l, i + 1, ToSet(first[..|first|/2])) && Asked(l, i + 1, ToSet(first[|first|/2..]))
         else if |first| == 1 then first[0] in l.singles
         else Reported(l, batches, ToSet(first))
  }

  /** What has to follow a request, answer by answer. */
  ghost predicate Followed(l: Log, i: nat, batches: bool)
    requires i < |l.requests|
  {
    var r := l.requests[i];
    match r.answer
    case Pending => false
    case Failed(replies) => AfterFailure(l, i, r.groups, replies, batches)
    case Silent => true
    case Served(served) =>
      && served <= r.Targets()
      && if served == {} then Reported(l, batches, r.Targets()) else Asked(l, i + 1, r.Targets() - served)
  }

  ghost predicate Serves(l: Log, t: int) { exists r :: r in l.requests && r.answer.Served? && t in r.answer.served }

  ghost predicate Untold(l: Log, t: int) { exists r :: r in l.requests && r.answer.Silent? && t in r.Targets() }

  /** Served, covered by an answer that says nothing, reported, or not needed. */
  ghost predicate Settled(l: Log, t: int) {
    Serves(l, t) || Untold(l, t) || t in l.singles || t in l.batches || t in l.unneeded
  }

  ghost predicate Lost(l: Log, t: int) { t in l.stopped || t in l.capped || t in l.abandoned }

  ghost predicate Ends(l: Log, t: int) { Settled(l, t) || Lost(l, t) }

  ghost predicate HasCause(l: Log, t: int) { t in l.capped || exists r :: r in l.requests && r.Fails(t) }

  ghost predicate WasAbandoned(l: Log, t: int) { exists r :: r in l.requests && r.Abandons(t) }

  /** Nothing is reported or given up without a reason, and what meets the cap is reported where batches are. */
  ghost predicate Honest(l: Log, batches: bool) {
    && (forall t :: t in l.singles || t in l.batches ==> HasCause(l, t))
    && (forall t :: t in l.abandoned ==> WasAbandoned(l, t))
    && (batches ==> l.capped <= l.batches)
  }

  /** What a session is told: the attempt cap, and whether on_batch_failure is given. */
  datatype Rules = Rules(cap: nat, batches: bool)

  ghost predicate Sound(rules: Rules, l: Log, i: nat, targets: set<int>)
    requires i < |l.requests|
  {
    var r := l.requests[i];
    Batch(r.groups) && r.groups != [] && r.Targets() <= targets && Followed(l, i, rules.batches)
  }

  /** From `a` to `b` by handling `targets` with at most `budget` compiles under the attempt cap. */
  ghost predicate Progress(rules: Rules, a: Log, b: Log, budget: nat, targets: set<int>) {
    && Grows(a, b)
    && (forall i :: |a.requests| <= i < |b.requests| ==> Sound(rules, b, i, targets))
    && (forall t :: t in targets ==> Ends(b, t))
    && (Honest(a, rules.batches) ==> Honest(b, rules.batches))
    && |b.requests| <= |a.requests| + budget
    && (|a.requests| + budget <= rules.cap ==> b.capped == a.capped)
  }

  // ---- What holds keeps holding --------------------------------------------

  lemma AskedGrows(a: Log, b: Log, from: nat, part: set<int>)
    requires Grows(a, b) && Asked(a, from, part)
    ensures Asked(b, from, part)
  {
    if j :| from <= j < |a.requests| && Covers(a.requests[j], part, a.unneeded) {
      assert b.requests[j] == a.requests[j];
      assert Covers(b.requests[j], part, b.unneeded);
    }
  }

  lemma AskedSooner(l: Log, from: nat, later: nat, part: set<int>)
    requires from <= later && Asked(l, later, part)
    ensures Asked(l, from, part)
  {
  }

  lemma AfterFailureGrows(a: Log, b: Log, i: nat, groups: seq<Group>, replies: seq<bool>, batches: bool)
    requires Grows(a, b) && AfterFailure(a, i, groups, replies, batches)
    ensures AfterFailure(b, i, groups, replies, batches)
  {
    var first := groups[0].targets;
    if |groups| > 1 && replies == [true] {
      AskedGrows(a, b, i + 1, TargetsOf(groups[..|groups|/2]));
      AskedGrows(a, b, i + 1, TargetsOf(groups[|groups|/2..]));
    } else if |first| > 1 && replies[|replies|-1] {
      AskedGrows(a, b, i + 1, ToSet(first[..|first|/2]));
      AskedGrows(a, b, i + 1, ToSet(first[|first|/2..]));
    }
  }

  lemma FollowedGrows(a: Log, b: Log, i: nat, batches: bool)
    requires Grows(a, b) && i < |a.requests| && Followed(a, i, batches)
    ensures Followed(b, i, batches)
  {
    var r := a.requests[i];
    assert b.requests[i] == r;
    match r.answer
    case Failed(replies) => AfterFailureGrows(a, b, i, r.groups, replies, batches);
    case Served(served) => if served != {} { AskedGrows(a, b, i + 1, r.Targets() - served); }
    case Silent =>
  }

  lemma EndsGrows(a: Log, b: Log, t: int)
    requires Grows(a, b) && Ends(a, t)
    ensures Ends(b, t)
  {
    if Serves(a, t) {
      var r :| r in a.requests && r.answer.Served? && t in r.answer.served;
      assert r in b.requests;
    } else if Untold(a, t) {
      var r :| r in a.requests && r.answer.Silent? && t in r.Targets();
      assert r in b.requests;
    }
  }

  /** More requests, nothing more reported. */
  lemma HonestGrows(a: Log, b: Log, batches: bool)
    requires Honest(a, batches) && a.requests <= b.requests
    requires b.singles == a.singles && b.batches == a.batches && b.abandoned == a.abandoned && b.capped == a.capped
    ensures Honest(b, batches)
  {
    forall t | t in b.singles || t in b.batches ensures HasCause(b, t) {
      assert HasCause(a, t);
      if r :| r in a.requests && r.Fails(t) { assert r in b.requests; }
    }
    forall t | t in b.abandoned ensures WasAbandoned(b, t) {
      var r :| r in a.requests && r.Abandons(t);
      assert r in b.requests;
    }
  }

  lemma ProgressJoin(rules: Rules, a: Log, b: Log, c: Log, m: nat, n: nat, left: set<int>, right: set<int>)
    requires Progress(rules, a, b, m, left) && Progress(rules, b, c, n, right)
    ensures Progress(rules, a, c, m + n, left + right)
  {
    forall i | |a.requests| <= i < |c.requests| ensures Sound(rules, c, i, left + right) {
      if i < |b.requests| {
        assert Sound(rules, b, i, left) && c.requests[i] == b.requests[i];
        FollowedGrows(b, c, i, rules.batches);
      } else {
        assert Sound(rules, c, i, right);
      }
    }
    forall t | t in left + right ensures Ends(c, t) {
      if t in left { EndsGrows(b, c, t); }
    }
  }

  lemma ProgressNothing(rules: Rules, a: Log)
    ensures Progress(rules, a, a, 0, {})
  {
  }

  lemma ProgressWidens(rules: Rules, a: Log, b: Log, m: nat, n: nat, targets: set<int>)
    requires Progress(rules, a, b, m, targets) && m <= n
    ensures Progress(rules, a, b, n, targets)
  {
  }

  /** `b` is `a` after the request, the rest of `targets` being no longer needed. */
  ghost predicate Opened(a: Log, b: Log, r: Request, targets: set<int>) {
    && Batch(r.groups) && r.groups != [] && r.Targets() <= targets <= r.Targets() + b.unneeded
    && a.unneeded <= b.unneeded && b == a.(requests := a.requests + [r], unneeded := b.unneeded)
  }

  /** Reports and losses for the request just made. */
  ghost predicate Tells(batches: bool, b: Log, c: Log) {
    && Grows(b, c) && c == b.(singles := c.singles, batches := c.batches, abandoned := c.abandoned)
    && (Honest(b, batches) ==> Honest(c, batches))
  }

  /** The same, by a first request for all of the targets that are still needed. */
  ghost predicate Handled(rules: Rules, a: Log, d: Log, budget: nat, targets: set<int>) {
    Progress(rules, a, d, budget, targets) && |a.requests| < |d.requests| && Covers(d.requests[|a.requests|], targets, d.unneeded)
  }

  lemma HandledWidens(rules: Rules, a: Log, b: Log, m: nat, n: nat, targets: set<int>)
    requires Handled(rules, a, b, m, targets) && m <= n
    ensures Handled(rules, a, b, n, targets)
  {
  }

  /** What follows a request: reports, and later runs over at most the given budget. */
  lemma ProgressOpened(rules: Rules, a: Log, b: Log, c: Log, d: Log, r: Request, targets: set<int>,
                       budget: nat, later: set<int>, total: nat)
    requires Opened(a, b, r, targets) && Tells(rules.batches, b, c)
    requires Progress(rules, c, d, budget, later) && later <= r.Targets() && 1 + budget <= total
    requires Followed(d, |a.requests|, rules.batches) && forall t :: t in r.Targets() ==> Ends(d, t)
    ensures Handled(rules, a, d, total, targets)
  {
    forall i | |a.requests| <= i < |d.requests| ensures Sound(rules, d, i, targets) {
      if i == |a.requests| {
        assert d.requests[i] == b.requests[i] == r;
      } else {
        assert Sound(rules, d, i, later);
      }
    }
    forall t | t in targets ensures Ends(d, t) {
      if t !in r.Targets() { assert t in d.unneeded; }
    }
    if Honest(a, rules.batches) { HonestGrows(a, b, rules.batches); }
  }

  lemma SilentEnds(rules: Rules, a: Log, b: Log, r: Request, targets: set<int>, total: nat)
    requires Opened(a, b, r, targets) && r.answer.Silent? && 1 <= total
    ensures Handled(rules, a, b, total, targets)
  {
    assert b.requests[|a.requests|] == r && r in b.requests;
    forall t | t in r.Targets() ensures Ends(b, t) { assert Untold(b, t); }
    ProgressNothing(rules, b);
    ProgressOpened(rules, a, b, b, b, r, targets, 0, {}, total);
  }

  /** What was served is settled, and the rest has been asked for. */
  lemma RestIsAsked(rules: Rules, b: Log, d: Log, r: Request, i: nat, served: set<int>, budget: nat)
    requires |b.requests| == i + 1 && b.requests[i] == r && r.answer == Served(served) && served <= r.Targets() && served != {}
    requires Progress(rules, b, d, budget, r.Targets() - served) && Asked(d, i + 1, r.Targets() - served)
    ensures Followed(d, i, rules.batches) && forall t :: t in r.Targets() ==> Ends(d, t)
  {
    assert d.requests[i] == r && r in d.requests;
    forall t | t in r.Targets() ensures Ends(d, t) {
      if t in served { assert Serves(d, t); }
    }
  }

  /** The first host's halves have been asked for, and the other hosts are given up. */
  lemma FirstIsSplit(rules: Rules, a: Log, b: Log, c: Log, d: Log, r: Request, targets: set<int>, budget: nat, total: nat)
    requires Opened(a, b, r, targets) && Tells(rules.batches, b, c) && 1 + budget <= total
    requires r.answer == Failed(if |r.groups| > 1 then [false, true] else [true]) && |r.groups[0].targets| > 1
    requires TargetsOf(r.groups[1..]) <= c.abandoned
    requires Progress(rules, c, d, budget, ToSet(r.groups[0].targets))
    requires var first, m := r.groups[0].targets, |r.groups[0].targets| / 2;
      Asked(d, |c.requests|, ToSet(first[..m])) && Asked(d, |c.requests|, ToSet(first[m..]))
    ensures Handled(rules, a, d, total, targets)
  {
    RestOfGroups(r.groups);
    assert d.requests[|a.requests|] == b.requests[|a.requests|] == r;
    assert AfterFailure(d, |a.requests|, r.groups, r.answer.replies, rules.batches);
    forall t | t in r.Targets() ensures Ends(d, t) { assert t in ToSet(r.groups[0].targets) || t in d.abandoned; }
    ProgressOpened(rules, a, b, c, d, r, targets, budget, ToSet(r.groups[0].targets), total);
  }

  /** The first host is reported, and the other hosts are given up. */
  lemma FirstIsReported(rules: Rules, a: Log, b: Log, c: Log, r: Request, targets: set<int>, total: nat)
    requires Opened(a, b, r, targets) && Tells(rules.batches, b, c) && 1 <= total && r.Undivided()
    requires |r.answer.replies| == (if |r.groups| > 1 then 1 else 0) + (if |r.groups[0].targets| > 1 then 1 else 0)
    requires TargetsOf(r.groups[1..]) <= c.abandoned && r.groups[0].targets != []
    requires if |r.groups[0].targets| == 1 then r.groups[0].targets[0] in c.singles
             else Reported(c, rules.batches, ToSet(r.groups[0].targets))
    ensures Handled(rules, a, c, total, targets)
  {
    RestOfGroups(r.groups);
    assert c.requests[|a.requests|] == r;
    assert AfterFailure(c, |a.requests|, r.groups, r.answer.replies, rules.batches);
    forall t | t in r.Targets() ensures Ends(c, t) { assert t in ToSet(r.groups[0].targets) || t in c.abandoned; }
    ProgressNothing(rules, c);
    ProgressOpened(rules, a, b, c, c, r, targets, 0, {}, total);
  }

  lemma ReportIsHonest(batches: bool, b: Log, c: Log, r: Request, told: set<int>)
    requires r in b.requests && forall t :: t in told ==> r.Fails(t)
    requires c == b.(batches := b.batches + told) || c == b.(singles := b.singles + told)
    ensures Tells(batches, b, c)
  {
    if Honest(b, batches) {
      forall t | t in c.singles || t in c.batches ensures HasCause(c, t) {
        if t in told { assert r in c.requests && r.Fails(t); } else { assert HasCause(b, t); }
      }
      forall t | t in c.abandoned ensures WasAbandoned(c, t) { assert WasAbandoned(b, t); }
    }
  }

  lemma AbandonIsHonest(batches: bool, b: Log, c: Log, r: Request)
    requires r in b.requests && r.answer.Failed? && r.groups != []
    requires |r.groups| > 1 ==> r.answer.replies != [] && !r.answer.replies[0]
    requires c == b.(abandoned := b.abandoned + TargetsOf(r.groups[1..]))
    ensures Tells(batches, b, c)
  {
    if Honest(b, batches) {
      forall t | t in c.singles || t in c.batches ensures HasCause(c, t) { assert HasCause(b, t); }
      forall t | t in c.abandoned ensures WasAbandoned(c, t) {
        if t in b.abandoned { assert WasAbandoned(b, t); } else { assert r in c.requests && r.Abandons(t); }
      }
    }
  }

  lemma CapIsHonest(batches: bool, a: Log, b: Log, met: set<int>)
    requires Honest(a, batches) && a.requests == b.requests && a.singles == b.singles && a.abandoned == b.abandoned
    requires b.capped == a.capped + met && b.batches == a.batches + if batches then met else {}
    ensures Honest(b, batches)
  {
    forall t | t in b.singles || t in b.batches ensures HasCause(b, t) {
      if t !in met { assert HasCause(a, t); }
    }
    forall t | t in b.abandoned ensures WasAbandoned(b, t) { assert WasAbandoned(a, t); }
  }

  /** The first host's targets and the others'. */
  lemma RestOfGroups(groups: seq<Group>)
    requires groups != []
    ensures TargetsOf(groups) == ToSet(groups[0].targets) + TargetsOf(groups[1..])
  {
    SplitTargets(groups, 1);
    OneGroup(groups[0]);
    assert groups[..1] == [groups[0]];
  }

  // ---- Shapes of the recursive calls -------------------------------------

  lemma SplitBudget(groups: seq<Group>, m: nat)
    requires Batch(groups) && 0 < m < |groups|
    ensures Budget(Total(groups[..m])) + Budget(Total(groups[m..])) + 1 == Budget(Total(groups))
    ensures Total(groups[..m]) < Total(groups) && Total(groups[m..]) < Total(groups)
  {
    TotalSplit(groups, m);
    BatchSplit(groups, m);
    TotalAtLeast(groups[..m]);
    TotalAtLeast(groups[m..]);
  }

  lemma SplitTargets(groups: seq<Group>, m: nat)
    requires m <= |groups|
    ensures TargetsOf(groups) == TargetsOf(groups[..m]) + TargetsOf(groups[m..])
  {
    forall x ensures x in TargetsOf(groups) <==> x in TargetsOf(groups[..m]) || x in TargetsOf(groups[m..]) {
      if g :| g in groups && x in g.targets {
        assert g in groups[..m] || g in groups[m..];
      }
      if g :| g in groups[..m] && x in g.targets { assert g in groups; }
      if g :| g in groups[m..] && x in g.targets { assert g in groups; }
    }
  }

  lemma OneGroup(g: Group)
    ensures Total([g]) == |g.targets| && TargetsOf([g]) == ToSet(g.targets)
    ensures 0 < |g.targets| <= BATCH_ALIAS_CAP && Increasing(g.targets) ==> Batch([g])
  {
    TotalOne(g);
    forall x ensures x in TargetsOf([g]) <==> x in g.targets {
      assert g in [g];
    }
  }

  lemma HalvesOfTargets(targets: seq<int>, m: nat)
    requires m <= |targets| && Increasing(targets)
    ensures Increasing(targets[..m]) && Increasing(targets[m..])
    ensures ToSet(targets) == ToSet(targets[..m]) + ToSet(targets[m..])
  {
    assert targets == targets[..m] + targets[m..];
  }

  lemma HalvesOfFirst(hosted: map<int, Key>, groups: seq<Group>, left: seq<Group>, right: seq<Group>)
    requires Batch(groups) && AllBacked(hosted, groups) && groups != [] && |groups[0].targets| > 1
    requires var g, m := groups[0], |groups[0].targets| / 2;
      left == [Group(g.key, g.targets[..m])] && right == [Group(g.key, g.targets[m..])]
    ensures Batch(left) && AllBacked(hosted, left) && Batch(right) && AllBacked(hosted, right)
    ensures TargetsOf(left) == ToSet(groups[0].targets[..|groups[0].targets|/2])
    ensures TargetsOf(right) == ToSet(groups[0].targets[|groups[0].targets|/2..])
    ensures TargetsOf(left) + TargetsOf(right) == ToSet(groups[0].targets)
    ensures Total(left) < Total(groups) && Total(right) < Total(groups)
    ensures Budget(Total(left)) + Budget(Total(right)) + 1 <= Budget(Total(groups))
  {
    FirstGroup(groups);
    assert groups[0] in groups && Backed(hosted, groups[0]);
    HalvesOfTargets(groups[0].targets, |groups[0].targets| / 2);
    OneGroup(left[0]);
    OneGroup(right[0]);
  }

  lemma FirstGroup(groups: seq<Group>)
    requires Batch(groups) && groups != []
    ensures 0 < |groups[0].targets| <= Total(groups) <= BATCH_ALIAS_CAP
    ensures ToSet(groups[0].targets) <= TargetsOf(groups)
    ensures |groups| == 1 ==> ToSet(groups[0].targets) == TargetsOf(groups)
  {
    TotalSplit(groups, 1);
    OneGroup(groups[0]);
    assert groups[..1] == [groups[0]];
    assert groups[0] in groups;
    SplitTargets(groups, 1);
    if |groups| == 1 {
      assert groups == [groups[0]];
    }
  }

  lemma BudgetMonotone(m: nat, n: nat)
    requires m <= n
    ensures Budget(m) <= Budget(n)
  {
  }

  // ---- The session -------------------------------------------------------

  lemma BuiltSnoc(requests: seq<Request>, r: Request)
    ensures Built(requests + [r]) == Built(requests) + if r.answer.Failed? then 0 else 1
  {
    assert (requests + [r])[..|requests|] == requests;
  }

  /** `attempts` and everything the nested `run` can reach, with the callbacks as functions of time. */
  class Session {
    const rules: Rules
    ghost const hosted: map<int, Key>      // what was asked for
    const needs: (nat, int) -> bool        // still_needed
    const stops: nat -> bool               // stop_requested
    const compiles: nat -> bool            // compile_one returned identities
    const serves: nat -> Option<set<int>>  // on_success
    const splits: nat -> bool              // should_bisect

    var clock: nat
    var attempts: nat
    ghost var log: Log

    ghost predicate CanStop() { exists n :: stops(n) }

    ghost predicate CanRefuseSplit() { exists n :: !splits(n) }

    /** At some moment the caller says that it no longer needs this target. */
    ghost predicate CanSkip(t: int) { exists n :: !needs(n, t) }

    /** From `lo` and before `hi` it was asked whether the target is needed, and it was. */
    ghost predicate Needed(t: int, lo: nat, hi: nat) { exists n: nat :: lo <= n < hi && needs(n, t) }

    ghost predicate Unstopped(lo: nat, hi: nat) { exists n: nat :: lo <= n < hi && !stops(n) }

    /** Since the moment `lo` the caller did not stop, and still needed all these targets. */
    ghost predicate Wanted(groups: seq<Group>, lo: nat, hi: nat) {
      Unstopped(lo, hi) && forall t :: t in TargetsOf(groups) ==> Needed(t, lo, hi)
    }

    /** The logged answer is what the callbacks said. */
    ghost predicate Genuine(r: Request) {
      match r.answer
      case Pending => compiles(r.at)
      case Failed(replies) => !compiles(r.at) && forall k: nat :: k < |replies| ==> replies[k] == splits(r.at + 1 + k)
      case Silent => compiles(r.at) && serves(r.at + 1).None?
      case Served(served) =>
        compiles(r.at) && serves(r.at + 1).Some? && served == (set t | t in serves(r.at + 1).value :: Canonical(t)) * r.Targets()
    }

    function Since(requests: seq<Request>, i: nat): nat
      requires i <= |requests|
    {
      if i == 0 then 0 else requests[i-1].at + 1
    }

    ghost predicate Recorded(requests: seq<Request>, i: nat)
      requires i < |requests|
    {
      Genuine(requests[i]) && AllBacked(hosted, requests[i].groups) && Wanted(requests[i].groups, Since(requests, i), requests[i].at)
    }

    ghost predicate AllRecorded(requests: seq<Request>, now: nat) {
      (forall i: nat :: i < |requests| ==> Recorded(requests, i)) && Since(requests, |requests|) <= now
    }

    ghost predicate Valid()
      reads this
    {
      && attempts == |log.requests| <= rules.cap && AllRecorded(log.requests, clock)
      && (forall t :: t in log.unneeded ==> CanSkip(t))
      && (log.stopped != {} ==> CanStop()) && (log.capped != {} ==> attempts >= rules.cap)
    }

    constructor (rules: Rules, needs: (nat, int) -> bool, stops: nat -> bool,
                 compiles: nat -> bool, serves: nat -> Option<set<int>>, splits: nat -> bool,
                 ghost hosted: map<int, Key>)
      ensures Valid() && this.hosted == hosted && log == NOTHING && this.rules == rules
    {
      this.rules, this.needs, this.hosted := rules, needs, hosted;
      this.stops, this.compiles, this.serves, this.splits := stops, compiles, serves, splits;
      clock, attempts := 0, 0;
      log := NOTHING;
    }

    // ---- The callbacks -------------------------------------------------------

    method StillNeeded(t: int) returns (b: bool)
      requires Valid()
      modifies this`clock, this`log
      ensures Valid() && b == needs(old(clock), t) && clock == old(clock) + 1
      ensures log == old(log).(unneeded := old(log).unneeded + if b then {} else {t})
    {
      b := needs(clock, t);
      clock := clock + 1;
      log := log.(unneeded := log.unneeded + if b then {} else {t});
    }

    /** A yes leaves these targets without an outcome. */
    method StopRequested(ghost targets: set<int>) returns (b: bool)
      requires Valid()
      modifies this`clock, this`log
      ensures Valid() && b == stops(old(clock)) && clock == old(clock) + 1
      ensures log == old(log).(stopped := old(log).stopped + if b then targets else {})
    {
      b := stops(clock);
      clock := clock + 1;
      log := log.(stopped := log.stopped + if b then targets else {});
    }

    /** compile_one: one attempt. */
    method CompileOne(groups: seq<Group>) returns (ok: bool)
      requires Valid() && attempts < rules.cap && AllBacked(hosted, groups) && Wanted(groups, Since(log.requests, |log.requests|), clock)
      modifies this
      ensures Valid() && clock == old(clock) + 1
      ensures log == old(log).(requests := old(log).requests + [Request(groups, old(clock), if ok then Pending else Failed([]))])
    {
      ok := compiles(clock);
      ghost var r := Request(groups, clock, if ok then Pending else Failed([]));
      attempts := attempts + 1;
      OneMore(log.requests, r);
      log := log.(requests := log.requests + [r]);
      clock := clock + 1;
    }

    lemma OneMore(requests: seq<Request>, r: Request)
      requires forall i: nat :: i < |requests| ==> Recorded(requests, i)
      requires Genuine(r) && AllBacked(hosted, r.groups) && Wanted(r.groups, Since(requests, |requests|), r.at)
      ensures AllRecorded(requests + [r], r.at + 1)
    {
      var more := requests + [r];
      forall i: nat | i < |more| ensures Recorded(more, i) {
        assert Since(more, i) == Since(requests, i);
        if i < |requests| { assert Recorded(requests, i); }
      }
    }

    /** The last request gets its answer. */
    lemma Answered(before: seq<Request>, r: Request, answer: Answer)
      requires forall i: nat :: i < |before| + 1 ==> Recorded(before + [r], i)
      requires Genuine(r.(answer := answer))
      ensures AllRecorded(before + [r.(answer := answer)], r.at + 1)
    {
      forall i: nat | i < |before| ensures Recorded(before, i) {
        assert Recorded(before + [r], i) && Since(before, i) == Since(before + [r], i);
      }
      assert Recorded(before + [r], |before|);
      assert Since(before + [r], |before|) == Since(before, |before|);
      OneMore(before, r.(answer := answer));
    }

    /** on_success: the requested targets it says are served, if it says anything. */
    method OnSuccess(ghost before: seq<Request>, ghost r: Request, entries: set<int>) returns (served: Option<set<int>>)
      requires Valid() && log.requests == before + [r] && r.answer.Pending? && clock == r.at + 1 && entries == r.Targets()
      modifies this`clock, this`log
      ensures Valid() && (served.Some? ==> served.value <= entries)
      ensures log == old(log).(requests := before + [r.(answer := if served.None? then Silent else Served(served.value))])
    {
      assert Recorded(before + [r], |before|);
      var answer := serves(clock);
      if answer.None? {
        served := None;
      } else {
        served := Some((set t | t in answer.value :: Canonical(t)) * entries);
      }
      Answered(before, r, if served.None? then Silent else Served(served.value));
      log := log.(requests := before + [r.(answer := if served.None? then Silent else Served(served.value))]);
      clock := clock + 1;
    }

    method ShouldBisect(ghost before: seq<Request>, ghost r: Request) returns (b: bool)
      requires Valid() && log.requests == before + [r] && r.answer.Failed? && clock == r.at + 1 + |r.answer.replies|
      modifies this`clock, this`log
      ensures Valid() && clock == old(clock) + 1 && (!b ==> CanRefuseSplit())
      ensures log == old(log).(requests := before + [r.(answer := Failed(r.answer.replies + [b]))])
    {
      b := splits(clock);
      assert Recorded(before + [r], |before|);
      Answered(before, r, Failed(r.answer.replies + [b]));
      log := log.(requests := before + [r.(answer := Failed(r.answer.replies + [b]))]);
      clock := clock + 1;
    }

    method OnSingletonFailure(t: int)
      requires Valid()
      modifies this`clock, this`log
      ensures Valid() && log == old(log).(singles := old(log).singles + {t})
    {
      clock := clock + 1;
      log := log.(singles := log.singles + {t});
    }

    method OnBatchFailure(targets: seq<int>)
      requires Valid()
      modifies this`clock, this`log
      ensures Valid() && log == old(log).(batches := old(log).batches + ToSet(targets))
    {
      clock := clock + 1;
      log := log.(batches := log.batches + ToSet(targets));
    }

    /** on_batch_failure where it is given, else on_singleton_failure for each. */
    method ReportAll(targets: seq<int>)
      requires Valid()
      modifies this`clock, this`log
      ensures Valid() && Reported(log, rules.batches, ToSet(targets))
      ensures log == if rules.batches then old(log).(batches := old(log).batches + ToSet(targets))
                     else old(log).(singles := old(log).singles + ToSet(targets))
    {
      if rules.batches {
        OnBatchFailure(targets);
        return;
      }
      for n := 0 to |targets|
        invariant Valid() && log == old(log).(singles := old(log).singles + ToSet(targets[..n]))
      {
        NextItem(targets, n);
        OnSingletonFailure(targets[n]);
      }
      assert targets[..|targets|] == targets;
    }

    /** Hosts behind the first one of a failed request get no request of their own. */
    ghost method Abandon(targets: set<int>)
      requires Valid()
      modifies this`log
      ensures Valid() && log == old(log).(abandoned := old(log).abandoned + targets)
    {
      log := log.(abandoned := log.abandoned + targets);
    }

    // ---- What is still needed --------------------------------------------------

    /** Nothing but dropped targets is new. */
    ghost predicate OnlyDrops(a: Log, b: Log) { a.unneeded <= b.unneeded && b == a.(unneeded := b.unneeded) }

    /** One host's targets that are still needed. */
    method NeededOf(targets: seq<int>) returns (needed: seq<int>)
      requires Valid() && Increasing(targets)
      modifies this`clock, this`log
      ensures Valid() && OnlyDrops(old(log), log) && old(clock) <= clock && Increasing(needed) && |needed| <= |targets|
      ensures forall t :: t in needed ==> t in targets && Needed(t, old(clock), clock)
      ensures forall t :: t in targets ==> t in needed || t in log.unneeded
    {
      needed := [];
      for n := 0 to |targets|
        invariant Valid() && OnlyDrops(old(log), log) && old(clock) <= clock && Increasing(needed) && |needed| <= n
        invariant forall t :: t in needed ==> t in targets[..n] && Needed(t, old(clock), clock)
        invariant forall t :: t in targets[..n] ==> t in needed || t in log.unneeded
      {
        var t := targets[n];
        assert targets[..n+1] == targets[..n] + [t];
        forall k | 0 <= k < |needed| ensures needed[k] < t { assert needed[k] in needed; assert needed[k] in targets[..n]; }
        var wanted := StillNeeded(t);
        if wanted { needed := needed + [t]; }
      }
      assert targets[..|targets|] == targets;
    }

    /** The kept part of the first `n` groups. */
    ghost predicate Kept(batch: seq<Group>, n: nat, filtered: seq<Group>, unneeded: set<int>)
      requires n <= |batch|
    {
      && Batch(filtered) && AllBacked(hosted, filtered) && |filtered| <= n && Total(filtered) <= Total(batch[..n])
      && (filtered != [] ==> n > 0 && filtered[|filtered|-1].key.host <= batch[n-1].key.host)
      && TargetsOf(filtered) <= TargetsOf(batch[..n]) <= TargetsOf(filtered) + unneeded
    }

    lemma KeepNone(batch: seq<Group>, n: nat, filtered: seq<Group>, unneeded: set<int>, more: set<int>)
      requires Batch(batch) && n < |batch| && Kept(batch, n, filtered, unneeded) && unneeded <= more
      requires forall t :: t in batch[n].targets ==> t in more
      ensures Kept(batch, n + 1, filtered, more)
    {
      var g := batch[n];
      assert batch[..n+1] == batch[..n] + [g];
      TotalSnoc(batch[..n], g);
      TargetsSnoc(batch[..n], g);
      if filtered != [] { assert batch[n-1].key.host < g.key.host; }
    }

    lemma KeepMore(batch: seq<Group>, n: nat, filtered: seq<Group>, unneeded: set<int>, needed: seq<int>, more: set<int>)
      requires Batch(batch) && AllBacked(hosted, batch) && n < |batch| && Kept(batch, n, filtered, unneeded) && unneeded <= more
      requires needed != [] && Increasing(needed) && |needed| <= |batch[n].targets|
      requires forall t :: t in needed ==> t in batch[n].targets
      requires forall t :: t in batch[n].targets ==> t in needed || t in more
      ensures Kept(batch, n + 1, filtered + [Group(batch[n].key, needed)], more)
    {
      var g, kept := batch[n], Group(batch[n].key, needed);
      assert batch[..n+1] == batch[..n] + [g];
      KeptBacked(batch, n, filtered, kept);
      KeptFits(batch, n, filtered, kept);
      KeptTargets(batch[..n], g, filtered, kept, unneeded, more);
    }

    lemma KeptBacked(batch: seq<Group>, n: nat, filtered: seq<Group>, kept: Group)
      requires AllBacked(hosted, batch) && AllBacked(hosted, filtered) && n < |batch|
      requires kept.key == batch[n].key && forall t :: t in kept.targets ==> t in batch[n].targets
      ensures AllBacked(hosted, filtered + [kept])
    {
      assert batch[n] in batch && Backed(hosted, batch[n]);
    }

    lemma KeptFits(batch: seq<Group>, n: nat, filtered: seq<Group>, kept: Group)
      requires Batch(batch) && n < |batch| && Batch(filtered) && |filtered| <= n && Total(filtered) <= Total(batch[..n])
      requires filtered != [] ==> n > 0 && filtered[|filtered|-1].key.host <= batch[n-1].key.host
      requires kept.key == batch[n].key && kept.targets != [] && Increasing(kept.targets) && |kept.targets| <= |batch[n].targets|
      ensures Batch(filtered + [kept]) && Total(filtered + [kept]) <= Total(batch[..n+1])
    {
      OneMoreTotal(batch, n);
      HostsRise(batch, n);
      BatchSnoc(filtered, kept);
      TotalSnoc(filtered, kept);
    }

    lemma OneMoreTotal(batch: seq<Group>, n: nat)
      requires n < |batch|
      ensures Total(batch[..n+1]) == Total(batch[..n]) + |batch[n].targets| <= Total(batch)
    {
      assert batch[..n+1] == batch[..n] + [batch[n]];
      TotalSnoc(batch[..n], batch[n]);
      TotalSplit(batch, n + 1);
    }

    lemma HostsRise(batch: seq<Group>, n: nat)
      requires StrictHosts(batch) && n < |batch|
      ensures n > 0 ==> batch[n-1].key.host < batch[n].key.host
    {
    }

    lemma KeptTargets(init: seq<Group>, g: Group, filtered: seq<Group>, kept: Group, unneeded: set<int>, more: set<int>)
      requires TargetsOf(filtered) <= TargetsOf(init) <= TargetsOf(filtered) + unneeded && unneeded <= more
      requires forall t :: t in kept.targets ==> t in g.targets
      requires forall t :: t in g.targets ==> t in kept.targets || t in more
      ensures TargetsOf(filtered + [kept]) <= TargetsOf(init + [g]) <= TargetsOf(filtered + [kept]) + more
    {
      TargetsSnoc(init, g);
      TargetsSnoc(filtered, kept);
    }

    lemma NeededWidens(targets: set<int>, from: nat, upTo: nat, lo: nat, hi: nat)
      requires lo <= from && upTo <= hi && forall t :: t in targets ==> Needed(t, from, upTo)
      ensures forall t :: t in targets ==> Needed(t, lo, hi)
    {
      forall t | t in targets ensures Needed(t, lo, hi) {
        var n: nat :| from <= n < upTo && needs(n, t);
        assert lo <= n < hi;
      }
    }

    /** The groups still needed, asked target by target. */
    method DropUnneeded(batch: seq<Group>) returns (filtered: seq<Group>)
      requires Valid() && Batch(batch) && AllBacked(hosted, batch)
      modifies this`clock, this`log
      ensures Valid() && OnlyDrops(old(log), log) && old(clock) <= clock && Batch(filtered) && AllBacked(hosted, filtered) && Total(filtered) <= Total(batch)
      ensures TargetsOf(filtered) <= TargetsOf(batch) <= TargetsOf(filtered) + log.unneeded
      ensures forall t :: t in TargetsOf(filtered) ==> Needed(t, old(clock), clock)
    {
      filtered := [];
      for n := 0 to |batch|
        invariant Valid() && OnlyDrops(old(log), log) && old(clock) <= clock && Kept(batch, n, filtered, log.unneeded)
        invariant forall t :: t in TargetsOf(filtered) ==> Needed(t, old(clock), clock)
      {
        assert batch[n] in batch;
        ghost var unneeded, from := log.unneeded, clock;
        var needed := NeededOf(batch[n].targets);
        NeededWidens(TargetsOf(filtered), old(clock), from, old(clock), clock);
        NeededWidens(ToSet(needed), from, clock, old(clock), clock);
        if needed == [] {
          KeepNone(batch, n, filtered, unneeded, log.unneeded);
        } else {
          KeepMore(batch, n, filtered, unneeded, needed, log.unneeded);
          TargetsSnoc(filtered, Group(batch[n].key, needed));
          filtered := filtered + [Group(batch[n].key, needed)];
        }
      }
      assert batch[..|batch|] == batch;
    }

    // ---- The retry tree ----------------------------------------------------------

    /** A success that serves nothing that was asked for: every target is reported. */
    method NothingServed(filtered: seq<Group>, ghost a: Log, ghost r: Request, ghost targets: set<int>)
      requires Valid() && Opened(a, log, r, targets) && r.groups == filtered && r.answer == Served({})
      modifies this`clock, this`log
      ensures Valid() && Handled(rules, a, log, 1, targets)
      ensures log.requests == old(log).requests
    {
      ghost var b := log;
      assert b.requests[|a.requests|] == r;
      ReportAll(Sorted(TargetsOf(filtered)));
      ReportIsHonest(rules.batches, b, log, r, TargetsOf(filtered));
      ProgressNothing(rules, log);
      ProgressOpened(rules, a, b, log, log, r, targets, 0, {}, 1);
    }

    /** What was not served is requested again. */
    method RetryRest(filtered: seq<Group>, served: set<int>, ghost a: Log, ghost r: Request, ghost targets: set<int>)
      returns (more: nat)
      requires Valid() && AllBacked(hosted, filtered) && Opened(a, log, r, targets)
      requires r.groups == filtered && r.answer == Served(served) && served <= TargetsOf(filtered) && served != {}
      modifies this
      ensures Valid() && Handled(rules, a, log, Budget(Total(filtered)), targets)
      ensures Built(log.requests) == Built(old(log).requests) + more
      decreases Total(filtered), 0
    {
      ghost var b := log;
      ghost var rest := TargetsOf(filtered) - served;
      var missing := Remaining(filtered, TargetsOf(filtered) - served);
      RetryIsSmaller(filtered, served);
      RemainingBacked(hosted, filtered, rest);
      assert b.requests[|a.requests|] == r && r in b.requests;
      if missing == [] {
        more := 0;
        ProgressNothing(rules, b);
      } else {
        more := Run(missing);
      }
      RestIsAsked(rules, b, log, r, |a.requests|, served, Budget(Total(missing)));
      ProgressOpened(rules, a, b, b, log, r, targets, Budget(Total(missing)), rest, Budget(Total(filtered)));
    }

    /** After a successful compile. */
    method Succeeded(filtered: seq<Group>, ghost a: Log, ghost r: Request, ghost targets: set<int>) returns (built: nat)
      requires Valid() && AllBacked(hosted, filtered) && Opened(a, log, r, targets)
      requires r.groups == filtered && r.answer.Pending? && clock == r.at + 1
      modifies this
      ensures Valid() && Handled(rules, a, log, Budget(Total(filtered)), targets)
      ensures Built(log.requests) == Built(a.requests) + built
      decreases Total(filtered), 1
    {
      FirstGroup(filtered);
      var answer := OnSuccess(a.requests, r, TargetsOf(filtered));
      ghost var said := r.(answer := if answer.None? then Silent else Served(answer.value));
      ghost var b := log;
      BuiltSnoc(a.requests, said);
      if answer.None? {
        SilentEnds(rules, a, b, said, targets, Budget(Total(filtered)));
        return 1;
      }
      if answer.value == {} {
        NothingServed(filtered, a, said, targets);
        HandledWidens(rules, a, log, 1, Budget(Total(filtered)), targets);
        return 1;
      }
      var more := RetryRest(filtered, answer.value, a, said, targets);
      built := 1 + more;
    }

    /** Two recursive calls in a row. */
    method RunBoth(left: seq<Group>, right: seq<Group>, ghost limit: nat) returns (built: nat)
      requires Valid() && AllBacked(hosted, left) && AllBacked(hosted, right) && Batch(left) && Batch(right) && Total(left) < limit && Total(right) < limit
      modifies this
      ensures Valid()
      ensures Progress(rules, old(log), log, Budget(Total(left)) + Budget(Total(right)), TargetsOf(left) + TargetsOf(right))
      ensures Asked(log, |old(log).requests|, TargetsOf(left)) && Asked(log, |old(log).requests|, TargetsOf(right))
      ensures Built(log.requests) == Built(old(log).requests) + built
      decreases limit, 0
    {
      ghost var a := log;
      var x := Run(left);
      ghost var b := log;
      var y := Run(right);
      AskedGrows(b, log, |a.requests|, TargetsOf(left));
      AskedSooner(log, |a.requests|, |b.requests|, TargetsOf(right));
      ProgressJoin(rules, a, b, log, Budget(Total(left)), Budget(Total(right)), TargetsOf(left), TargetsOf(right));
      built := x + y;
    }

    /** A failed batch of several hosts, split between hosts. */
    method SplitHosts(filtered: seq<Group>, ghost a: Log, ghost r: Request, ghost targets: set<int>) returns (built: nat)
      requires Valid() && AllBacked(hosted, filtered) && Opened(a, log, r, targets) && |filtered| > 1
      requires r.groups == filtered && r.answer == Failed([true])
      modifies this
      ensures Valid() && Handled(rules, a, log, Budget(Total(filtered)), targets)
      ensures Built(log.requests) == Built(a.requests) + built
      decreases Total(filtered), 1
    {
      ghost var b := log;
      BuiltSnoc(a.requests, r);
      var m := |filtered| / 2;
      SplitBudget(filtered, m);
      BatchSplit(filtered, m);
      SplitTargets(filtered, m);
      built := RunBoth(filtered[..m], filtered[m..], Total(filtered));
      assert log.requests[|a.requests|] == b.requests[|a.requests|] == r;
      ProgressOpened(rules, a, b, b, log, r, targets, Budget(Total(filtered)) - 1, TargetsOf(filtered), Budget(Total(filtered)));
    }

    /** A failed batch whose first host is split between targets; the other hosts are not retried. */
    method SplitTargetsOfFirst(filtered: seq<Group>, ghost a: Log, ghost r: Request, ghost targets: set<int>) returns (built: nat)
      requires Valid() && AllBacked(hosted, filtered) && Opened(a, log, r, targets)
      requires r.groups == filtered && |filtered[0].targets| > 1 && r.answer == Failed(if |filtered| > 1 then [false, true] else [true])
      modifies this
      ensures Valid() && Handled(rules, a, log, Budget(Total(filtered)), targets)
      ensures Built(log.requests) == Built(a.requests) + built
      decreases Total(filtered), 1
    {
      ghost var b := log;
      BuiltSnoc(a.requests, r);
      var key, first := filtered[0].key, filtered[0].targets;
      var m := |first| / 2;
      var left, right := [Group(key, first[..m])], [Group(key, first[m..])];
      HalvesOfFirst(hosted, filtered, left, right);
      Abandon(TargetsOf(filtered[1..]));
      ghost var c := log;
      AbandonIsHonest(rules.batches, b, c, r);
      built := RunBoth(left, right, Total(filtered));
      FirstIsSplit(rules, a, b, c, log, r, targets, Budget(Total(left)) + Budget(Total(right)), Budget(Total(filtered)));
    }

    /** One host's targets: a single one on its own, several together where on_batch_failure is given. */
    method ReportHost(targets: seq<int>)
      requires Valid() && targets != []
      modifies this`clock, this`log
      ensures Valid() && if |targets| == 1 then targets[0] in log.singles else Reported(log, rules.batches, ToSet(targets))
      ensures log == old(log).(batches := old(log).batches + ToSet(targets)) || log == old(log).(singles := old(log).singles + ToSet(targets))
    {
      if |targets| == 1 {
        assert targets == [targets[0]];
        OnSingletonFailure(targets[0]);
      } else {
        ReportAll(targets);
      }
    }

    /** A failed batch that is not split: the first host's targets are reported. */
    method Report(filtered: seq<Group>, ghost a: Log, ghost r: Request, ghost targets: set<int>)
      requires Valid() && Opened(a, log, r, targets) && r.groups == filtered && r.answer.Failed? && r.Undivided()
      requires |r.answer.replies| == (if |filtered| > 1 then 1 else 0) + (if |filtered[0].targets| > 1 then 1 else 0)
      modifies this`clock, this`log
      ensures Valid() && Handled(rules, a, log, Budget(Total(filtered)), targets)
      ensures Built(log.requests) == Built(a.requests)
    {
      ghost var b := log;
      BuiltSnoc(a.requests, r);
      FirstGroup(filtered);
      var first := filtered[0].targets;
      Abandon(TargetsOf(filtered[1..]));
      AbandonIsHonest(rules.batches, b, log, r);
      ghost var c := log;
      ReportHost(first);
      ReportIsHonest(rules.batches, c, log, r, ToSet(first));
      FirstIsReported(rules, a, b, log, r, targets, Budget(Total(filtered)));
    }

    /** After a failed compile: split the hosts, else the first host's targets, else report it. */
    method Bisect(filtered: seq<Group>, ghost a: Log, ghost first: Request, ghost targets: set<int>) returns (built: nat)
      requires Valid() && AllBacked(hosted, filtered) && Opened(a, log, first, targets)
      requires first.groups == filtered && first.answer == Failed([]) && clock == first.at + 1
      modifies this
      ensures Valid() && Handled(rules, a, log, Budget(Total(filtered)), targets)
      ensures Built(log.requests) == Built(a.requests) + built
      decreases Total(filtered), 3
    {
      ghost var r := first;
      if |filtered| > 1 {
        var bisect := ShouldBisect(a.requests, r);
        assert [] + [bisect] == [bisect];
        r := r.(answer := Failed([bisect]));
        if bisect {
          built := SplitHosts(filtered, a, r, targets);
          return;
        }
      }
      if |filtered[0].targets| > 1 {
        var bisect := ShouldBisect(a.requests, r);
        r := r.(answer := Failed(r.answer.replies + [bisect]));
        assert r.answer.replies == if |filtered| > 1 then [false, bisect] else [bisect];
        if bisect {
          built := SplitTargetsOfFirst(filtered, a, r, targets);
          return;
        }
      }
      FirstGroup(filtered);
      built := 0;
      Report(filtered, a, r, targets);
    }

    /** The cap is reached: the batch is reported where on_batch_failure is given. */
    method MeetCap(filtered: seq<Group>, ghost a: Log, ghost targets: set<int>)
      requires Valid() && attempts >= rules.cap && Batch(filtered) && filtered != []
      requires TargetsOf(filtered) <= targets <= TargetsOf(filtered) + log.unneeded
      requires a.unneeded <= log.unneeded && log == a.(unneeded := log.unneeded)
      modifies this`clock, this`log
      ensures Valid() && Progress(rules, a, log, Budget(Total(filtered)), targets) && log.requests == a.requests
      ensures TargetsOf(filtered) <= log.capped && log.unneeded == old(log).unneeded
    {
      FirstGroup(filtered);
      ghost var d := log;
      log := log.(capped := log.capped + TargetsOf(filtered));
      if rules.batches {
        OnBatchFailure(Sorted(TargetsOf(filtered)));
      }
      if Honest(a, rules.batches) { CapIsHonest(rules.batches, a, log, TargetsOf(filtered)); }
      forall t | t in targets ensures Ends(log, t) {
        assert t in log.unneeded || t in log.capped;
      }
    }

    /** Compile what is still needed, if the cap allows it. */
    method Attempt(filtered: seq<Group>, ghost a: Log, ghost targets: set<int>) returns (built: nat)
      requires Valid() && AllBacked(hosted, filtered) && Batch(filtered) && filtered != []
      requires TargetsOf(filtered) <= targets <= TargetsOf(filtered) + log.unneeded
      requires a.unneeded <= log.unneeded && log == a.(unneeded := log.unneeded)
      requires Wanted(filtered, Since(log.requests, |log.requests|), clock)
      modifies this
      ensures Valid() && Progress(rules, a, log, Budget(Total(filtered)), targets)
      ensures Asked(log, |a.requests|, targets)
      ensures Built(log.requests) == Built(a.requests) + built
      decreases Total(filtered), 4
    {
      if attempts >= rules.cap {
        MeetCap(filtered, a, targets);
        return 0;
      }
      ghost var at := clock;
      var ok := CompileOne(filtered);
      ghost var r := Request(filtered, at, if ok then Pending else Failed([]));
      if ok {
        built := Succeeded(filtered, a, r, targets);
      } else {
        built := Bisect(filtered, a, r, targets);
      }
    }

    /** The nested `run`. */
    method Run(batch: seq<Group>) returns (built: nat)
      requires Valid() && AllBacked(hosted, batch) && Batch(batch)
      modifies this
      ensures Valid() && Progress(rules, old(log), log, Budget(Total(batch)), TargetsOf(batch))
      // All that is still needed of the batch goes into one request.
      ensures Asked(log, |old(log).requests|, TargetsOf(batch))
      ensures Built(log.requests) == Built(old(log).requests) + built
      decreases Total(batch), 5
    {
      ghost var a, from := log, clock;
      var stop := StopRequested(TargetsOf(batch));
      if stop {
        return 0;
      }
      assert log == a;
      ghost var asked := clock;
      var filtered := DropUnneeded(batch);
      if filtered == [] {
        forall t | t in TargetsOf(batch) ensures Ends(log, t) { assert t in log.unneeded; }
        if Honest(a, rules.batches) { HonestGrows(a, log, rules.batches); }
        return 0;
      }
      assert !stops(from);
      NeededWidens(TargetsOf(filtered), asked, clock, Since(a.requests, |a.requests|), clock);
      built := Attempt(filtered, a, TargetsOf(batch));
      BudgetMonotone(Total(filtered), Total(batch));
      ProgressWidens(rules, a, log, Budget(Total(filtered)), Budget(Total(batch)), TargetsOf(batch));
    }
  }

  /** Every retry after a partial success has lost at least one target. */
  lemma RetryIsSmaller(filtered: seq<Group>, served: set<int>)
    requires Batch(filtered) && served <= TargetsOf(filtered) && served != {}
    ensures var missing := Remaining(filtered, TargetsOf(filtered) - served);
      && Batch(missing) && TargetsOf(missing) == TargetsOf(filtered) - served
      && Total(missing) < Total(filtered) && 1 + Budget(Total(missing)) <= Budget(Total(filtered))
      && (missing == [] ==> Total(missing) == 0 && TargetsOf(missing) == {})
  {
    var keep := TargetsOf(filtered) - served;
    RemainingIsBatch(filtered, keep);
    var t := Witness(served);
    assert t in TargetsOf(filtered) && t !in keep;
  }

  // ---- The whole call ----------------------------------------------------

  lemma ChunkTotals(chunks: seq<seq<Group>>, i: nat)
    requires i < |chunks|
    ensures SumOfBudgets(chunks[..i+1]) == SumOfBudgets(chunks[..i]) + Budget(Total(chunks[i]))
    ensures TargetsOf(Flatten(chunks[..i+1])) == TargetsOf(Flatten(chunks[..i])) + TargetsOf(chunks[i])
  {
    assert chunks[..i+1] == chunks[..i] + [chunks[i]];
    FlattenSnoc(chunks[..i], chunks[i]);
    SplitTargets(Flatten(chunks[..i]) + chunks[i], |Flatten(chunks[..i])|);
    assert (Flatten(chunks[..i]) + chunks[i])[..|Flatten(chunks[..i])|] == Flatten(chunks[..i]);
    assert (Flatten(chunks[..i]) + chunks[i])[|Flatten(chunks[..i])|..] == chunks[i];
  }

  lemma {:induction false} BudgetsGrow(chunks: seq<seq<Group>>, i: nat)
    requires i <= |chunks|
    ensures SumOfBudgets(chunks[..i]) <= SumOfBudgets(chunks)
    decreases |chunks| - i
  {
    if i < |chunks| {
      ChunkTotals(chunks, i);
      BudgetsGrow(chunks, i + 1);
    } else {
      assert chunks[..i] == chunks;
    }
  }

  /** Every group of every chunk is nonempty, so the chunks together fit one budget. */
  lemma TotalBudget(chunks: seq<seq<Group>>, groups: seq<Group>, n: nat)
    requires Flatten(chunks) == groups && Total(groups) <= n
    requires forall c :: c in chunks ==> c != [] && Batch(c)
    ensures SumOfBudgets(chunks) <= Budget(n)
  {
    forall c | c in chunks ensures Total(c) > 0 {
      FirstGroup(c);
    }
    BudgetsAdd(chunks);
    BudgetMonotone(Total(groups), n);
  }

  lemma FlattenMember(chunks: seq<seq<Group>>, i: nat)
    requires i <= |chunks|
    ensures TargetsOf(Flatten(chunks[..i])) <= TargetsOf(Flatten(chunks))
    decreases |chunks| - i
  {
    if i < |chunks| {
      ChunkTotals(chunks, i);
      FlattenMember(chunks, i + 1);
    } else {
      assert chunks[..i] == chunks;
    }
  }

  /** All targets from the `i`-th chunk on. */
  function TargetsFrom(chunks: seq<seq<Group>>, i: nat): set<int> {
    set n, t | i <= n < |chunks| && t in TargetsOf(chunks[n]) :: t
  }

  lemma {:induction false} TargetsSomewhere(chunks: seq<seq<Group>>, i: nat)
    requires i <= |chunks|
    ensures TargetsOf(Flatten(chunks)) <= TargetsOf(Flatten(chunks[..i])) + TargetsFrom(chunks, i)
    decreases |chunks| - i
  {
    if i < |chunks| {
      ChunkTotals(chunks, i);
      TargetsSomewhere(chunks, i + 1);
    } else {
      assert chunks[..i] == chunks;
    }
  }

  /** Each of these chunks is asked for as one request. */
  ghost predicate ChunksAsked(l: Log, from: nat, chunks: seq<seq<Group>>, n: nat) {
    forall i :: 0 <= i < n <= |chunks| ==> Asked(l, from, TargetsOf(chunks[i]))
  }

  /** One more chunk. */
  method RunChunk(s: Session, chunks: seq<seq<Group>>, i: nat, ghost a: Log) returns (more: nat)
    requires s.Valid() && i < |chunks| && Batch(chunks[i]) && AllBacked(s.hosted, chunks[i])
    requires Progress(s.rules, a, s.log, SumOfBudgets(chunks[..i]), TargetsOf(Flatten(chunks[..i])))
    requires ChunksAsked(s.log, |a.requests|, chunks, i)
    modifies s
    ensures s.Valid() && Built(s.log.requests) == Built(old(s.log).requests) + more
    ensures Progress(s.rules, a, s.log, SumOfBudgets(chunks[..i+1]), TargetsOf(Flatten(chunks[..i+1])))
    ensures ChunksAsked(s.log, |a.requests|, chunks, i + 1)
  {
    ghost var b := s.log;
    more := s.Run(chunks[i]);
    ChunkTotals(chunks, i);
    ProgressJoin(s.rules, a, b, s.log, SumOfBudgets(chunks[..i]), Budget(Total(chunks[i])),
                 TargetsOf(Flatten(chunks[..i])), TargetsOf(chunks[i]));
    AskedSooner(s.log, |a.requests|, |b.requests|, TargetsOf(chunks[i]));
    forall n | 0 <= n < i ensures Asked(s.log, |a.requests|, TargetsOf(chunks[n])) {
      AskedGrows(b, s.log, |a.requests|, TargetsOf(chunks[n]));
    }
  }

  /** The caller has stopped the loop before a chunk. */
  lemma StoppedBefore(rules: Rules, chunks: seq<seq<Group>>, i: nat, a: Log, b: Log, c: Log)
    requires i <= |chunks| && c == b.(stopped := b.stopped + TargetsFrom(chunks, i))
    requires Progress(rules, a, b, SumOfBudgets(chunks[..i]), TargetsOf(Flatten(chunks[..i])))
    requires ChunksAsked(b, |a.requests|, chunks, i)
    ensures Progress(rules, a, c, SumOfBudgets(chunks), TargetsOf(Flatten(chunks)))
    ensures ChunksAsked(c, |a.requests|, chunks, |chunks|)
  {
    FlattenMember(chunks, i);
    TargetsSomewhere(chunks, i);
    StopLoses(rules, a, b, c, SumOfBudgets(chunks[..i]), TargetsOf(Flatten(chunks[..i])), TargetsFrom(chunks, i), TargetsOf(Flatten(chunks)));
    BudgetsGrow(chunks, i);
    ProgressWidens(rules, a, c, SumOfBudgets(chunks[..i]), SumOfBudgets(chunks), TargetsOf(Flatten(chunks)));
    forall n | 0 <= n < |chunks| ensures Asked(c, |a.requests|, TargetsOf(chunks[n])) {
      if n < i { AskedGrows(b, c, |a.requests|, TargetsOf(chunks[n])); } else { assert TargetsOf(chunks[n]) <= c.stopped; }
    }
  }

  lemma StopLoses(rules: Rules, a: Log, b: Log, c: Log, budget: nat, done: set<int>, rest: set<int>, targets: set<int>)
    requires Progress(rules, a, b, budget, done) && c == b.(stopped := b.stopped + rest) && done <= targets <= done + rest
    ensures Progress(rules, a, c, budget, targets)
  {
    forall i | |a.requests| <= i < |c.requests| ensures Sound(rules, c, i, targets) {
      assert Sound(rules, b, i, done);
      FollowedGrows(b, c, i, rules.batches);
    }
    forall t | t in targets ensures Ends(c, t) {
      if t in done { EndsGrows(b, c, t); }
    }
    if Honest(b, rules.batches) { HonestGrows(b, c, rules.batches); }
  }

  /** The loop over the chunks. */
  method RunChunks(s: Session, chunks: seq<seq<Group>>) returns (built: nat)
    requires s.Valid() && forall c :: c in chunks ==> c != [] && Batch(c) && AllBacked(s.hosted, c)
    modifies s
    ensures s.Valid() && Built(s.log.requests) == Built(old(s.log).requests) + built
    ensures Progress(s.rules, old(s.log), s.log, SumOfBudgets(chunks), TargetsOf(Flatten(chunks)))
    ensures ChunksAsked(s.log, |old(s.log).requests|, chunks, |chunks|)
  {
    ghost var a := s.log;
    built := 0;
    assert chunks[..0] == [];
    for i := 0 to |chunks|
      invariant s.Valid() && Built(s.log.requests) == Built(a.requests) + built
      invariant Progress(s.rules, a, s.log, SumOfBudgets(chunks[..i]), TargetsOf(Flatten(chunks[..i])))
      invariant ChunksAsked(s.log, |a.requests|, chunks, i)
    {
      ghost var b := s.log;
      var stop := s.StopRequested(TargetsFrom(chunks, i));
      if stop {
        StoppedBefore(s.rules, chunks, i, a, b, s.log);
        return;
      }
      assert s.log == b && chunks[i] in chunks;
      var more := RunChunk(s, chunks, i, a);
      built := built + more;
    }
    assert chunks[..|chunks|] == chunks;
  }

  /** The requests to begin with: the sorted groups of all targets, every chunk taking in what fits. */
  ghost predicate Plan(hosted: map<int, Key>, chunks: seq<seq<Group>>) {
    && InOrder(Flatten(chunks)) && AllBacked(hosted, Flatten(chunks)) && Greedy(chunks)
    && (forall t :: t in hosted ==> InGroup(Flatten(chunks), hosted[t], Canonical(t)))
    && forall c :: c in chunks ==> c != [] && Batch(c)
  }

  /** What is true of every request. */
  ghost predicate Lawful(l: Log, i: nat, hosted: map<int, Key>, batches: bool)
    requires i < |l.requests|
  {
    var r := l.requests[i];
    r.groups != [] && |r.groups| <= 64 && Total(r.groups) <= 256 && AllBacked(hosted, r.groups) && Followed(l, i, batches)
  }

  /** compile_batched_hosted_aliases over a fresh session. */
  method CompileBatchedHostedAliases(s: Session, hosted: map<int, Key>) returns (built: nat, ghost chunks: seq<seq<Group>>)
    requires s.Valid() && s.log == NOTHING && s.hosted == hosted
    modifies s
    // The log is what the callbacks said, and the result the number of compiles that succeeded.
    ensures s.Valid() && built == Built(s.log.requests)
    // At most 2N - 1 compiles for N targets, and no more than the cap, whatever the callbacks answer.
    ensures |s.log.requests| == s.attempts <= Budget(|hosted|) && s.attempts <= s.rules.cap
    // Every request is a batch of targets under the keys they were asked for, and is followed by what its answer calls for.
    ensures forall i: nat :: i < |s.log.requests| ==> Lawful(s.log, i, hosted, s.rules.batches)
    // It begins with the planned chunks.
    ensures Plan(hosted, chunks) && ChunksAsked(s.log, 0, chunks, |chunks|)
    // Every target ends, and nothing is reported or given up without a reason.
    ensures (forall t :: t in hosted ==> Ends(s.log, Canonical(t))) && Honest(s.log, s.rules.batches)
    // The cap of 2 * 4096 - 1 is out of reach of a capped selection ...
    ensures Budget(|hosted|) <= s.rules.cap || (|hosted| <= SELECTED_ALIAS_CAP && s.rules.cap == ATTEMPT_CAP) ==> s.log.capped == {}
    // ... so with a caller that never stops it and always lets a failed batch be split, every target of it is served,
    // reported, covered by an answer that says nothing, or no longer needed.
    ensures |hosted| <= SELECTED_ALIAS_CAP && s.rules.cap == ATTEMPT_CAP && !s.CanStop() && !s.CanRefuseSplit() ==>
      forall t :: t in hosted ==> Settled(s.log, Canonical(t))
  {
    var groups := GroupTargets(hosted);
    var parts := Chunk(groups);
    chunks := parts;
    ChunksBacked(hosted, parts);
    forall t | t in hosted ensures Canonical(t) in TargetsOf(groups) { assert InGroup(groups, hosted[t], Canonical(t)); }
    TotalBudget(parts, groups, |hosted|);
    built := RunChunks(s, parts);
    ProgressWidens(s.rules, NOTHING, s.log, SumOfBudgets(parts), Budget(|hosted|), TargetsOf(groups));
    forall i: nat | i < |s.log.requests| ensures Lawful(s.log, i, hosted, s.rules.batches) {
      assert Sound(s.rules, s.log, i, TargetsOf(groups)) && s.Recorded(s.log.requests, i);
    }
    NoneAbandoned(s);
    forall t | t in hosted ensures Ends(s.log, Canonical(t)) { assert Canonical(t) in TargetsOf(groups); }
  }

  /** Without a refused split no host is given up. */
  lemma NoneAbandoned(s: Session)
    requires s.Valid() && Honest(s.log, s.rules.batches)
    ensures !s.CanRefuseSplit() ==> s.log.abandoned == {}
  {
    if s.log.abandoned != {} {
      var t := Witness(s.log.abandoned);
      assert WasAbandoned(s.log, t);
      var r :| r in s.log.requests && r.Abandons(t);
      var i: nat :| i < |s.log.requests| && s.log.requests[i] == r;
      assert s.Recorded(s.log.requests, i);
      var k: nat := 0;
      assert r.answer.replies[k] == s.splits(r.at + 1 + k);
    }
  }

  /** The attempt cap is exactly the budget of a full selection. */
  lemma CapIsBudget(n: nat)
    ensures n <= SELECTED_ALIAS_CAP <==> Budget(n) <= ATTEMPT_CAP
  {
  }
}
