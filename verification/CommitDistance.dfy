/** The single-parent ancestry the compare endpoint walks: hops, distances and
    the comparison of two commits. */
module CommitDistance {

  type Sha = string

  function Next(parents: map<Sha, Sha>, c: Sha): Sha {
    if c in parents then parents[c] else ""
  }

  /** The commit n parent hops back from c; "" once the history has ended. */
  function Hop(parents: map<Sha, Sha>, c: Sha, n: nat): Sha
    decreases n
  {
    if n == 0 then c
    else
      var p := Next(parents, c);
      if p == "" then "" else Hop(parents, p, n - 1)
  }

  lemma {:induction false} HopAdd(parents: map<Sha, Sha>, c: Sha, x: nat, y: nat)
    requires x > 0
    ensures var mid := Hop(parents, c, x);
      Hop(parents, c, x + y) == if mid == "" then "" else Hop(parents, mid, y)
    decreases x
  {
    var p := Next(parents, c);
    if p != "" && x > 1 {
      HopAdd(parents, p, x - 1, y);
    }
  }

  /** The walk back from d looking for a comes to an end: exactly when the loop over parents does. */
  ghost predicate Halts(parents: map<Sha, Sha>, d: Sha, a: Sha) {
    exists n: nat :: n > 0 && (Hop(parents, d, n) == "" || Hop(parents, d, n) == a)
  }

  /** a is the ancestor of d first met r hops back; r is 0 when it is none. */
  ghost predicate IsDistance(parents: map<Sha, Sha>, d: Sha, a: Sha, r: nat) {
    if r == 0 then a == "" || forall n: nat | n > 0 :: Hop(parents, d, n) != a
    else
      a != "" && Hop(parents, d, r) == a && forall n: nat | 0 < n < r :: Hop(parents, d, n) != a
  }

  ghost predicate Acyclic(parents: map<Sha, Sha>) {
    forall c: Sha, n: nat | c != "" && n > 0 :: Hop(parents, c, n) != c
  }

  lemma HistoryEnded(parents: map<Sha, Sha>, d: Sha, n: nat)
    requires n > 0 && Hop(parents, d, n) == ""
    ensures forall k: nat | k >= n :: Hop(parents, d, k) == ""
  {
    forall k: nat | k >= n ensures Hop(parents, d, k) == "" {
      HopAdd(parents, d, n, k - n);
    }
  }

  /** None of the first k hops ends the walk. */
  ghost predicate WalksOn(parents: map<Sha, Sha>, d: Sha, a: Sha, k: nat) {
    forall n: nat | 0 < n <= k :: Hop(parents, d, n) !in {"", a}
  }

  /** The walk comes back to a commit it was at before, with nothing on the way to end it.
      If it ever does, it does within one hop more than there are recorded parents. */
  ghost predicate Loops(parents: map<Sha, Sha>, d: Sha, a: Sha) {
    exists i: nat, k: nat ::
      0 < i < k <= |parents| + 1 && Hop(parents, d, i) == Hop(parents, d, k) && WalksOn(parents, d, a, k)
  }

  /** Once round, the walk only repeats the hops it made. */
  lemma {:induction false} RoundAndRound(parents: map<Sha, Sha>, d: Sha, a: Sha, i: nat, k: nat, n: nat)
    requires 0 < i < k && Hop(parents, d, i) == Hop(parents, d, k) && WalksOn(parents, d, a, k) && n > 0
    ensures Hop(parents, d, n) !in {"", a}
    decreases n
  {
    if n > k {
      HopAdd(parents, d, i, n - k);
      HopAdd(parents, d, k, n - k);
      RoundAndRound(parents, d, a, i, k, i + (n - k));
    }
  }

  ghost predicate MetBefore(parents: map<Sha, Sha>, d: Sha, k: nat, c: Sha) {
    c != "" && exists i: nat :: 0 < i < k && Hop(parents, d, i) == c
  }

  /** The hops before the k-th are all different recorded commits, so they run out. */
  lemma {:induction false} WalkEnds(parents: map<Sha, Sha>, d: Sha, a: Sha, k: nat, seen: set<Sha>)
    requires !Loops(parents, d, a) && k > 0 && WalksOn(parents, d, a, k - 1)
    requires seen <= parents.Keys && |seen| == k - 1
    requires forall c | c in seen :: MetBefore(parents, d, k, c)
    ensures Halts(parents, d, a)
    decreases parents.Keys - seen
  {
    var c := Hop(parents, d, k);
    HopAdd(parents, d, k, 1);
    if c !in {"", a} && c in parents {
      SeenFits(parents, seen);
      assert WalksOn(parents, d, a, k);
      if c in seen {
        assert false;
      }
      forall s | s in seen ensures MetBefore(parents, d, k + 1, s) {
        assert MetBefore(parents, d, k, s);
      }
      assert MetBefore(parents, d, k + 1, c);
      WalkEnds(parents, d, a, k + 1, seen + {c});
    }
  }

  lemma SeenFits(parents: map<Sha, Sha>, seen: set<Sha>)
    requires seen <= parents.Keys
    ensures |seen| <= |parents|
  {
    assert |parents.Keys - seen| == |parents.Keys| - |seen|;
  }

  /** The walk ends exactly when it does not loop. */
  lemma HaltsUnlessItLoops(parents: map<Sha, Sha>, d: Sha, a: Sha)
    ensures Halts(parents, d, a) <==> !Loops(parents, d, a)
  {
    if Loops(parents, d, a) {
      var i: nat, k: nat :|
        0 < i < k <= |parents| + 1 && Hop(parents, d, i) == Hop(parents, d, k) && WalksOn(parents, d, a, k);
      forall n: nat | n > 0 ensures Hop(parents, d, n) !in {"", a} {
        RoundAndRound(parents, d, a, i, k, n);
      }
    } else {
      WalkEnds(parents, d, a, 1, {});
    }
  }

  /** Without cycles every walk ends. */
  lemma AcyclicHalts(parents: map<Sha, Sha>, d: Sha, a: Sha)
    requires Acyclic(parents)
    ensures Halts(parents, d, a)
  {
    HaltsUnlessItLoops(parents, d, a);
    if Loops(parents, d, a) {
      var i: nat, k: nat :|
        0 < i < k <= |parents| + 1 && Hop(parents, d, i) == Hop(parents, d, k) && WalksOn(parents, d, a, k);
      HopAdd(parents, d, i, k - i);
    }
  }

  /** On an acyclic history an ancestor is met once. */
  lemma MetOnce(parents: map<Sha, Sha>, d: Sha, a: Sha, x: nat, y: nat)
    requires Acyclic(parents) && a != "" && 0 < x <= y
    requires Hop(parents, d, x) == a == Hop(parents, d, y)
    ensures x == y
  {
    HopAdd(parents, d, x, y - x);
  }

  /** Distances add along a chain. */
  lemma DistancesAdd(parents: map<Sha, Sha>, d: Sha, a: Sha, b: Sha, x: nat, y: nat)
    requires Acyclic(parents) && x > 0 && y > 0
    requires IsDistance(parents, d, a, x) && IsDistance(parents, a, b, y)
    ensures IsDistance(parents, d, b, x + y)
  {
    HopAdd(parents, d, x, y);
    forall n: nat | 0 < n < x + y ensures Hop(parents, d, n) != b {
      if Hop(parents, d, n) == b {
        MetOnce(parents, d, b, n, x + y);
      }
    }
  }

  /** An acyclic history leads between two commits in one direction at most. */
  lemma OneDirection(parents: map<Sha, Sha>, d: Sha, a: Sha, x: nat, y: nat)
    requires Acyclic(parents) && d != ""
    requires IsDistance(parents, d, a, x) && IsDistance(parents, a, d, y)
    ensures x == 0 || y == 0
  {
    if x > 0 && y > 0 {
      HopAdd(parents, d, x, y);
    }
  }

  datatype Comparison = Comparison(status: string, aheadBy: nat, behindBy: nat)

  /** How head relates to base: "behind" when head is base's ancestor, "ahead" the other way round. */
  ghost predicate IsComparison(parents: map<Sha, Sha>, base: Sha, head: Sha, c: Comparison) {
    if base == head then c == Comparison("identical", 0, 0)
    else
      || (c.status == "behind" && c.aheadBy == 0 && c.behindBy > 0
          && IsDistance(parents, base, head, c.behindBy))
      || (c.status == "ahead" && c.behindBy == 0 && c.aheadBy > 0
          && IsDistance(parents, base, head, 0) && IsDistance(parents, head, base, c.aheadBy))
      || (c == Comparison("diverged", 0, 0)
          && IsDistance(parents, base, head, 0) && IsDistance(parents, head, base, 0))
  }

  function Mirrored(c: Comparison): Comparison {
    Comparison(
      if c.status == "ahead" then "behind" else if c.status == "behind" then "ahead" else c.status,
      c.behindBy, c.aheadBy)
  }

  ghost predicate EachBehindTheOther(parents: map<Sha, Sha>, a: Sha, b: Sha) {
    exists x: nat, y: nat :: x > 0 && y > 0 && IsDistance(parents, a, b, x) && IsDistance(parents, b, a, y)
  }

  lemma BehindMeansAncestor(parents: map<Sha, Sha>, base: Sha, head: Sha, c: Comparison, x: nat)
    requires base != head && IsComparison(parents, base, head, c) && IsDistance(parents, base, head, x)
    ensures c.behindBy == x && (c.status == "behind" <==> x > 0)
  {}

  /** Swapping base and head mirrors the answer, unless the two lie on one cycle. */
  lemma CompareMirrors(parents: map<Sha, Sha>, base: Sha, head: Sha, c: Comparison, d: Comparison)
    requires IsComparison(parents, base, head, c) && IsComparison(parents, head, base, d)
    ensures d == Mirrored(c) <==> base == head || !EachBehindTheOther(parents, base, head)
  {}

  lemma AcyclicCompareMirrors(parents: map<Sha, Sha>, base: Sha, head: Sha, c: Comparison, d: Comparison)
    requires Acyclic(parents)
    requires IsComparison(parents, base, head, c) && IsComparison(parents, head, base, d)
    ensures d == Mirrored(c)
  {
    CompareMirrors(parents, base, head, c, d);
    if base != head && EachBehindTheOther(parents, base, head) {
      var x: nat, y: nat :| x > 0 && y > 0 && IsDistance(parents, base, head, x) && IsDistance(parents, head, base, y);
      OneDirection(parents, base, head, x, y);
    }
  }

  /** On a cycle each commit is behind the other, and the answer does not mirror. */
  lemma CycleIsBehindBothWays(a: Sha, b: Sha)
    requires a != "" && b != "" && a != b
    ensures var parents := map[a := b, b := a];
      && EachBehindTheOther(parents, a, b)
      && forall c, d | IsComparison(parents, a, b, c) && IsComparison(parents, b, a, d) ::
           c.status == d.status == "behind" && d != Mirrored(c)
  {
    var parents := map[a := b, b := a];
    assert Hop(parents, a, 1) == b && Hop(parents, b, 1) == a;
    assert IsDistance(parents, a, b, 1) && IsDistance(parents, b, a, 1);
    forall c, d | IsComparison(parents, a, b, c) && IsComparison(parents, b, a, d)
      ensures c.status == d.status == "behind" && d != Mirrored(c)
    {
      BehindMeansAncestor(parents, a, b, c, 1);
      BehindMeansAncestor(parents, b, a, d, 1);
    }
  }

  /** A commit recorded as its own parent sends the walk round for ever, unless it is what the walk looks for. */
  lemma {:induction false} SelfParentNeverHalts(parents: map<Sha, Sha>, c: Sha, a: Sha)
    requires c != "" && c in parents && parents[c] == c
    ensures Halts(parents, c, a) <==> a == c
  {
    forall n: nat | n > 0 ensures Hop(parents, c, n) == c {
      SelfParentHop(parents, c, n);
    }
    if a == c {
      SelfParentHop(parents, c, 1);
    }
  }

  lemma {:induction false} SelfParentHop(parents: map<Sha, Sha>, c: Sha, n: nat)
    requires c != "" && c in parents && parents[c] == c
    ensures Hop(parents, c, n) == c
    decreases n
  {
    if n > 0 {
      SelfParentHop(parents, c, n - 1);
    }
  }
}
