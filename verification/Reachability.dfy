/** Reachability in a control-flow graph given by its edge relation. */
module Reachability {

  type Graph = (int, int) -> bool

  predicate EdgeAt(g: Graph, path: seq<int>, i: int)
    requires 0 <= i < |path| - 1
  {
    g(path[i], path[i+1])
  }

  ghost predicate IsPath(g: Graph, path: seq<int>) {
    path != [] && forall i :: 0 <= i < |path| - 1 ==> EdgeAt(g, path, i)
  }

  ghost predicate Connects(g: Graph, from: set<int>, a: int, path: seq<int>) {
    IsPath(g, path) && path[0] in from && path[|path|-1] == a
  }

  /** Some path of the graph leads from one of the addresses to `a`. */
  ghost predicate Reachable(g: Graph, from: set<int>, a: int) {
    exists path :: Connects(g, from, a, path)
  }

  ghost predicate AllReachable(g: Graph, from: set<int>, s: set<int>) {
    forall a :: a in s ==> Reachable(g, from, a)
  }

  lemma Starts(g: Graph, from: set<int>)
    ensures AllReachable(g, from, from)
  {
    forall a | a in from ensures Reachable(g, from, a) {
      assert Connects(g, from, a, [a]);
    }
  }

  lemma Continues(g: Graph, from: set<int>, a: int, next: set<int>)
    requires Reachable(g, from, a) && forall b :: b in next ==> g(a, b)
    ensures AllReachable(g, from, next)
  {
    var path :| Connects(g, from, a, path);
    forall b | b in next ensures Reachable(g, from, b) {
      var longer := path + [b];
      forall i | 0 <= i < |longer| - 1 ensures EdgeAt(g, longer, i) {
        if i < |path| - 1 { assert EdgeAt(g, path, i); }
      }
      assert Connects(g, from, b, longer);
    }
  }

  ghost predicate ClosedUnder(g: Graph, s: set<int>) { forall a, b :: a in s && g(a, b) ==> b in s }

  /** What is closed under the edges holds all that is reachable from it. */
  lemma {:induction false} ClosedHolds(g: Graph, from: set<int>, s: set<int>, path: seq<int>)
    requires from <= s && ClosedUnder(g, s) && IsPath(g, path) && path[0] in from
    ensures path[|path|-1] in s
    decreases |path|
  {
    var n := |path| - 1;
    if n > 0 {
      var init := path[..n];
      forall i | 0 <= i < |init| - 1 ensures EdgeAt(g, init, i) { assert EdgeAt(g, path, i); }
      ClosedHolds(g, from, s, init);
      assert EdgeAt(g, path, n - 1);
      ClosedStep(g, s, path[n-1], path[n]);
    }
  }

  lemma ClosedStep(g: Graph, s: set<int>, a: int, b: int)
    requires ClosedUnder(g, s) && a in s && g(a, b)
    ensures b in s
  {
  }

  // ---- Worklists -----------------------------------------------------------

  ghost predicate WorkReachable(g: Graph, from: set<int>, work: seq<int>) {
    forall i :: 0 <= i < |work| ==> Reachable(g, from, work[i])
  }

  /** Everything marked and everything still to do is reachable. */
  ghost predicate WalkState(g: Graph, from: set<int>, reached: set<int>, work: seq<int>) {
    AllReachable(g, from, reached) && WorkReachable(g, from, work)
  }

  lemma WalkStarts(g: Graph, from: set<int>, work: seq<int>)
    requires forall i :: 0 <= i < |work| ==> work[i] in from
    ensures WalkState(g, from, {}, work)
  {
    Starts(g, from);
  }

  lemma WalkDrops(g: Graph, from: set<int>, reached: set<int>, work: seq<int>)
    requires WalkState(g, from, reached, work) && work != []
    ensures Reachable(g, from, work[0]) && WalkState(g, from, reached, work[1..])
  {
  }

  lemma WalkGrows(g: Graph, from: set<int>, reached: set<int>, work: seq<int>, marked: set<int>, more: seq<int>)
    requires WalkState(g, from, reached, work) && AllReachable(g, from, marked) && WorkReachable(g, from, more)
    ensures WalkState(g, from, reached + marked, work + more)
  {
  }

  /** One visit: the address and what its edges lead to. */
  lemma WalkVisits(g: Graph, from: set<int>, reached: set<int>, work: seq<int>, a: int, marked: set<int>, more: seq<int>)
    requires WalkState(g, from, reached, work) && Reachable(g, from, a)
    requires forall b :: b in marked ==> g(a, b)
    requires forall i :: 0 <= i < |more| ==> g(a, more[i])
    ensures WalkState(g, from, reached + {a} + marked, work + more)
  {
    var next := marked + set i | 0 <= i < |more| :: more[i];
    Continues(g, from, a, next);
    forall i | 0 <= i < |more| ensures Reachable(g, from, more[i]) {
      assert more[i] in next;
    }
    WalkGrows(g, from, reached, work, {a} + marked, more);
    assert reached + ({a} + marked) == reached + {a} + marked;
  }

  // ---- Closure of a walk that marks delay slots without expanding them --------

  type Successors = int -> set<int>

  predicate Expanded(next: Successors, slots: Successors, body: set<int>, work: seq<int>, a: int) {
    a in body && slots(a) <= body && forall b :: b in next(a) ==> b in body || b in work
  }

  predicate InSlot(slots: Successors, expanded: set<int>, a: int) { a - 4 in expanded && a in slots(a - 4) }

  /** Everything an expanded address leads to is marked or queued, and only delay slots are marked unexpanded. */
  ghost predicate Follows(next: Successors, slots: Successors, body: set<int>, expanded: set<int>, work: seq<int>) {
    && (forall a :: a in expanded ==> Expanded(next, slots, body, work, a))
    && (forall a :: a in body ==> a in expanded || InSlot(slots, expanded, a))
  }

  lemma FollowsDrops(next: Successors, slots: Successors, body: set<int>, expanded: set<int>, work: seq<int>)
    requires Follows(next, slots, body, expanded, work) && work != []
    requires work[0] in body || forall a :: a in expanded ==> work[0] !in next(a)
    ensures Follows(next, slots, body, expanded, work[1..])
  {
    forall a | a in expanded ensures Expanded(next, slots, body, work[1..], a) {
      assert Expanded(next, slots, body, work, a);
      forall b | b in next(a) ensures b in body || b in work[1..] {
        if b !in body {
          assert b in work && b != work[0];
          assert work == [work[0]] + work[1..];
        }
      }
    }
  }

  lemma FollowsVisits(next: Successors, slots: Successors, body: set<int>, expanded: set<int>, work: seq<int>, more: seq<int>)
    requires Follows(next, slots, body, expanded, work) && work != []
    requires forall a | a == work[0] :: (forall b | b in slots(a) :: b == a + 4) && forall b :: b in next(a) ==> b in more
    ensures Follows(next, slots, body + {work[0]} + slots(work[0]), expanded + {work[0]}, work[1..] + more)
  {
    var pc := work[0];
    var body', expanded', work' := body + {pc} + slots(pc), expanded + {pc}, work[1..] + more;
    forall a | a in expanded' ensures Expanded(next, slots, body', work', a) {
      if a in expanded {
        assert Expanded(next, slots, body, work, a);
        forall b | b in next(a) ensures b in body' || b in work' {
          assert work == [pc] + work[1..];
        }
      }
    }
    forall a | a in body' ensures a in expanded' || InSlot(slots, expanded', a) {
      if a in body && a !in expanded { assert InSlot(slots, expanded, a); }
    }
  }
}
