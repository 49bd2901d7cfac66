/** Preview request routing: Ingress Prefix matching on strings, and the pick of
    the longest matching prefix. */
module PreviewRouting {
  import opened Text

  predicate StartsAtRoot(s: string) {
    "/" <= s
  }

  function Trimmed(prefix: string): string {
    TrimRight(prefix, '/')
  }

  function RequestPath(path: string): string {
    if path == "" then "/" else path
  }

  predicate PreviewPathMatches(prefix: string, path: string) {
    var path := RequestPath(path);
    if !StartsAtRoot(path) || !StartsAtRoot(prefix) then false
    else
      var prefix := Trimmed(prefix);
      prefix == "" || path == prefix || prefix + "/" <= path
  }

  // ---- the element-by-element reading ----

  /** The "/"-separated elements of a prefix, its trailing slashes ignored. */
  function Elements(prefix: string): seq<string> {
    Split(Trimmed(prefix), '/')
  }

  /** Ingress pathType Prefix: the prefix's elements begin the path's. */
  ghost predicate ElementMatch(prefix: string, path: string) {
    && (path != "" ==> path[0] == '/')
    && prefix != "" && prefix[0] == '/'
    && Split(TrimRight(prefix, '/'), '/') <= Split(if path == "" then "/" else path, '/')
  }

  lemma MatchIsElementwise(prefix: string, path: string)
    ensures PreviewPathMatches(prefix, path) <==> ElementMatch(prefix, path)
  {
    SplitPrefix(Trimmed(prefix), RequestPath(path), '/');
  }

  /** A trailing slash on the path is ignored too. */
  lemma TrailingSlashIsIgnored(prefix: string, path: string)
    requires StartsAtRoot(path)
    ensures PreviewPathMatches(prefix, path) <==> StartsAtRoot(prefix) && Elements(prefix) <= Elements(path)
  {
    var p, t := Trimmed(prefix), Trimmed(path);
    TrimRightDrops(prefix, '/');
    TrimRightDrops(path, '/');
    SplitPrefix(p, t, '/');
    if p == "" {
      SplitPrefix("", t, '/');
      assert t != "" ==> "" + "/" <= t;
    } else {
      assert t <= path && p[|p| - 1] != '/';
      if p + "/" <= path {
        assert path[|p| - 1] == p[|p| - 1] && |p| - 1 < |t|;
        assert p <= t;
      }
    }
  }

  /** Equal elements mean equal trimmed prefixes. */
  lemma ElementsAreFaithful(a: string, b: string)
    ensures Elements(a) == Elements(b) <==> Trimmed(a) == Trimmed(b)
  {
    JoinSplit(Trimmed(a), '/');
    JoinSplit(Trimmed(b), '/');
  }

  /** Two prefixes of one path are comparable, and the shorter string is the one with fewer elements. */
  lemma MatchesAreComparable(a: string, b: string, path: string)
    requires PreviewPathMatches(a, path) && PreviewPathMatches(b, path)
    ensures Elements(a) <= Elements(b) || Elements(b) <= Elements(a)
    ensures |Trimmed(a)| <= |Trimmed(b)| <==> Elements(a) <= Elements(b)
    ensures |Trimmed(a)| == |Trimmed(b)| <==> Elements(a) == Elements(b)
  {
    var p, ta, tb := RequestPath(path), Trimmed(a), Trimmed(b);
    TrimRightDrops(a, '/');
    TrimRightDrops(b, '/');
    ElementsAreFaithful(a, b);
    SplitPrefix(ta, tb, '/');
    SplitPrefix(tb, ta, '/');
    assert ta <= p && tb <= p;
    if |ta| == |tb| {
      assert ta == tb;
    } else if |ta| < |tb| {
      assert tb[|ta|] == p[|ta|] == '/';
      assert ta + "/" <= tb;
    } else {
      assert ta[|tb|] == p[|tb|] == '/';
      assert tb + "/" <= ta;
    }
  }

  // ---- the route ----

  /** r is -1 when none of the first n prefixes matches; else it is the first
      match among them whose elements extend every match's. */
  ghost predicate IsRouteOf(prefixes: seq<string>, n: nat, path: string, r: int)
    requires n <= |prefixes|
  {
    if r == -1 then forall i | 0 <= i < n :: !ElementMatch(prefixes[i], path)
    else
      && 0 <= r < n
      && ElementMatch(prefixes[r], path)
      && forall i | 0 <= i < n && ElementMatch(prefixes[i], path) :: Yields(prefixes, i, r)
  }

  predicate Yields(prefixes: seq<string>, i: nat, r: nat)
    requires i < |prefixes| && r < |prefixes|
  {
    Elements(prefixes[i]) <= Elements(prefixes[r]) && (Elements(prefixes[i]) == Elements(prefixes[r]) ==> r <= i)
  }

  ghost predicate IsRoute(prefixes: seq<string>, path: string, r: int) {
    IsRouteOf(prefixes, |prefixes|, path, r)
  }

  lemma RouteStep(prefixes: seq<string>, n: nat, path: string, best: int)
    requires n < |prefixes| && IsRouteOf(prefixes, n, path, best)
    ensures var longer := best == -1 || |Trimmed(prefixes[n])| > |Trimmed(prefixes[best])|;
      IsRouteOf(prefixes, n + 1, path, if longer && PreviewPathMatches(prefixes[n], path) then n else best)
  {
    MatchIsElementwise(prefixes[n], path);
    if ElementMatch(prefixes[n], path) && best != -1 {
      MatchIsElementwise(prefixes[best], path);
      MatchesAreComparable(prefixes[n], prefixes[best], path);
      if |Trimmed(prefixes[n])| > |Trimmed(prefixes[best])| {
        forall i | 0 <= i < n && ElementMatch(prefixes[i], path) ensures Yields(prefixes, i, n) {
          assert Yields(prefixes, i, best);
        }
      } else {
        assert Yields(prefixes, n, best);
      }
    }
  }

  method PreviewRoute(prefixes: seq<string>, path: string) returns (best: int)
    ensures IsRoute(prefixes, path, best)
  {
    best := -1;
    var bestLen := -1;
    for i := 0 to |prefixes|
      invariant best == -1 || 0 <= best < i
      invariant bestLen == (if best == -1 then -1 else |Trimmed(prefixes[best])|)
      invariant IsRouteOf(prefixes, i, path, best)
    {
      RouteStep(prefixes, i, path, best);
      var n := |Trimmed(prefixes[i])|;
      if n > bestLen && PreviewPathMatches(prefixes[i], path) {
        best, bestLen := i, n;
      }
    }
  }

  lemma RouteIsUnique(prefixes: seq<string>, path: string, r: int, s: int)
    requires IsRoute(prefixes, path, r) && IsRoute(prefixes, path, s)
    ensures r == s
  {}

  ghost predicate DistinctOnceTrimmed(prefixes: seq<string>) {
    forall i, j | 0 <= i < j < |prefixes| :: Trimmed(prefixes[i]) != Trimmed(prefixes[j])
  }

  ghost predicate Rearranged<T>(a: seq<T>, b: seq<T>) {
    multiset(a) == multiset(b)
  }

  lemma RearrangedIndex<T>(a: seq<T>, b: seq<T>, i: nat) returns (j: nat)
    requires Rearranged(a, b) && i < |a|
    ensures j < |b| && b[j] == a[i]
  {
    assert a[i] in multiset(a);
    assert a[i] in multiset(b);
    j :| 0 <= j < |b| && b[j] == a[i];
  }

  /** Reordering a list of distinct prefixes never changes which one is chosen. */
  lemma RouteIgnoresOrder(prefixes: seq<string>, reordered: seq<string>, path: string, r: int, s: int)
    requires DistinctOnceTrimmed(prefixes) && Rearranged(prefixes, reordered)
    requires IsRoute(prefixes, path, r) && IsRoute(reordered, path, s)
    ensures r == -1 <==> s == -1
    ensures r != -1 ==> prefixes[r] == reordered[s]
  {
    if r != -1 {
      var j := RearrangedIndex(prefixes, reordered, r);
      assert ElementMatch(reordered[j], path);
    }
    if s != -1 {
      var i := RearrangedIndex(reordered, prefixes, s);
      assert ElementMatch(prefixes[i], path);
    }
    if r != -1 && s != -1 {
      var j := RearrangedIndex(prefixes, reordered, r);
      var i := RearrangedIndex(reordered, prefixes, s);
      assert Yields(prefixes, i, r) && Yields(reordered, j, s);
      assert Elements(prefixes[i]) == Elements(prefixes[r]);
      ElementsAreFaithful(prefixes[i], prefixes[r]);
      assert i == r;
    }
  }
}
