/** The in-memory Git store: minted object names, the objects pushed under them,
    the commit graph and its ancestry search, each repository's own refs, and the
    log of ref writes.
    Each method is one region held under the server's mutex. */
module GitStore {
  import opened Text
  import opened CommitDistance

  type Repo = string
  type Ref = string
  type Path = string
  type Bytes = string

  const BASE_SHA: Sha := "00000000000000000000000000000000000000ba"
  const CREATED: nat := 201
  const OK: nat := 200
  const UNPROCESSABLE: nat := 422

  datatype RefOp = Create | Update

  datatype RefWrite = RefWrite(repo: Repo, op: RefOp, ref: Ref, sha: Sha, force: bool, status: nat) {
    predicate Accepted() { status == CREATED || status == OK }
  }

  datatype Refusal = RefExists | RefMissing | ObjectMissing | NotFastForward

  datatype Reply = Done(status: nat) | Refused(why: Refusal)

  datatype CommitRec = CommitRec(message: string, tree: Sha, parents: seq<Sha>)

  /** An entry of a tree asked for; no sha is a deletion. */
  datatype TreeEntry = TreeEntry(path: Path, sha: Option<Sha>)

  /** A tree maps a path to its blob, "" for a deletion; parents is the SetParents ancestry. */
  datatype Store = Store(
    blobs: map<Sha, Bytes>, trees: map<Sha, map<Path, Sha>>, commits: map<Sha, CommitRec>, parents: map<Sha, Sha>,
    refs: map<Repo, map<Ref, Sha>>, shared: map<Ref, Sha>, next: nat, writes: seq<RefWrite>)

  const EMPTY := Store(map[], map[], map[], map[], map[], map[], 0, [])

  // ---- minted object names ----

  function Repeat(c: char, n: nat): (s: string)
    ensures |s| == n && forall i | 0 <= i < n :: s[i] == c
  {
    seq(n, _ => c)
  }

  /** %07d */
  function Padded(n: nat): string {
    var d := Decimal(n);
    if |d| < 7 then Repeat('0', 7 - |d|) + d else d
  }

  function ObjectName(kind: char, n: nat): Sha {
    Repeat(kind, 33) + Padded(n)
  }

  lemma {:induction false} ValueOfPadding(k: nat, d: string)
    requires AllDigits(d)
    ensures AllDigits(Repeat('0', k) + d) && Value(Repeat('0', k) + d) == Value(d)
    decreases k + |d|
  {
    var s := Repeat('0', k) + d;
    if d != [] {
      ValueOfPadding(k, d[..|d| - 1]);
      assert s[..|s| - 1] == Repeat('0', k) + d[..|d| - 1];
    } else if k > 0 {
      ValueOfPadding(k - 1, d);
      assert s[..k - 1] == Repeat('0', k - 1) + d;
    }
  }

  /** The kind 33 times and the number in seven digits: 40 characters until the numbers outgrow them. */
  lemma ObjectNameShape(kind: char, n: nat)
    ensures var name := ObjectName(kind, n);
      && |name| >= 40 && (|name| == 40 <==> n < 10_000_000)
      && (forall i | 0 <= i < 33 :: name[i] == kind)
      && AllDigits(name[33..]) && Value(name[33..]) == n
  {
    assert ObjectName(kind, n)[33..] == Padded(n);
    ValueOfPadded(n);
    DecimalWidth(n, 7);
    Widths();
  }

  lemma ObjectNameIsFresh(kind: char, m: nat, n: nat)
    requires ObjectName(kind, m) == ObjectName(kind, n)
    ensures m == n
  {
    assert Padded(m) == ObjectName(kind, m)[33..] == ObjectName(kind, n)[33..] == Padded(n);
    ValueOfPadded(m);
    ValueOfPadded(n);
  }

  lemma ValueOfPadded(n: nat)
    ensures AllDigits(Padded(n)) && Value(Padded(n)) == n
  {
    ValueDecimal(n);
    ValueOfPadding(if |Decimal(n)| < 7 then 7 - |Decimal(n)| else 0, Decimal(n));
  }

  // ---- ancestry ----

  function ParentsOf(s: Store, c: Sha): seq<Sha> {
    (if c in s.commits then s.commits[c].parents else []) + (if c in s.parents then [s.parents[c]] else [])
  }

  lemma ParentsAre(s: Store, c: Sha)
    ensures ParentsOf(s, c) ==
            (if c in s.commits then s.commits[c].parents else []) + (if c in s.parents then [s.parents[c]] else [])
  {}

  /** A pushed commit's parents, and the one SetParents gave it. */
  ghost predicate ParentEdge(s: Store, child: Sha, parent: Sha) {
    || (child in s.commits && parent in s.commits[child].parents)
    || (child in s.parents && s.parents[child] == parent)
  }

  lemma ParentsAreEdges(s: Store, child: Sha)
    ensures forall parent :: parent in ParentsOf(s, child) <==> ParentEdge(s, child, parent)
  {}

  /** A non-empty chain of parent edges. */
  ghost predicate Chain(s: Store, path: seq<Sha>) {
    |path| >= 2 && forall i | 0 <= i < |path| - 1 :: Linked(s, path, i)
  }

  ghost predicate Linked(s: Store, path: seq<Sha>, i: nat)
    requires i < |path| - 1
  {
    ParentEdge(s, path[i], path[i + 1])
  }

  ghost predicate Leads(s: Store, path: seq<Sha>, d: Sha, a: Sha) {
    Chain(s, path) && path[0] == d && path[|path| - 1] == a
  }

  ghost predicate Reaches(s: Store, d: Sha, a: Sha) {
    exists path :: Leads(s, path, d, a)
  }

  lemma OneEdge(s: Store, d: Sha, a: Sha)
    requires ParentEdge(s, d, a)
    ensures Reaches(s, d, a)
  {
    assert Linked(s, [d, a], 0);
    assert Leads(s, [d, a], d, a);
  }

  lemma ReachesTransitive(s: Store, d: Sha, m: Sha, a: Sha)
    requires Reaches(s, d, m) && Reaches(s, m, a)
    ensures Reaches(s, d, a)
  {
    var p :| Leads(s, p, d, m);
    var q :| Leads(s, q, m, a);
    var path := p + q[1..];
    forall i | 0 <= i < |path| - 1 ensures Linked(s, path, i) {
      if i < |p| - 1 {
        assert Linked(s, p, i);
      } else {
        var j := i - (|p| - 1);
        assert path[i] == q[j] && path[i + 1] == q[j + 1] && Linked(s, q, j);
      }
    }
    assert Leads(s, path, d, a);
  }

  ghost predicate KeepsAncestry(s: Store, t: Store) {
    forall d, a | ParentEdge(s, d, a) :: ParentEdge(t, d, a)
  }

  lemma ReachesKept(s: Store, t: Store, d: Sha, a: Sha)
    requires KeepsAncestry(s, t) && Reaches(s, d, a)
    ensures Reaches(t, d, a)
  {
    var path :| Leads(s, path, d, a);
    forall i | 0 <= i < |path| - 1 ensures Linked(t, path, i) {
      assert Linked(s, path, i);
    }
    assert Leads(t, path, d, a);
  }

  /** The search's stopping point: a set closed under parents, none of them a, is all of d's history. */
  lemma ClosedHistory(s: Store, seen: set<Sha>, d: Sha, a: Sha)
    requires d in seen
    requires forall c, p | c in seen && ParentEdge(s, c, p) :: p in seen && p != a
    ensures !Reaches(s, d, a)
  {
    if Reaches(s, d, a) {
      var path :| Leads(s, path, d, a);
      var k := |path| - 2;
      assert Linked(s, path, k);
      PathStays(s, seen, path, k);
    }
  }

  lemma {:induction false} PathStays(s: Store, seen: set<Sha>, path: seq<Sha>, i: nat)
    requires Chain(s, path) && path[0] in seen && i < |path| - 1
    requires forall c, p | c in seen && ParentEdge(s, c, p) :: p in seen
    ensures path[i] in seen
  {
    if i > 0 {
      PathStays(s, seen, path, i - 1);
      assert Linked(s, path, i - 1);
    }
  }

  /** d is seen or waiting; so is every parent of a seen commit, and it is not the one looked for. */
  ghost predicate Frontier(s: Store, seen: set<Sha>, queue: seq<Sha>, d: Sha, a: Sha) {
    && (d in seen || d in queue)
    && forall c, p | c in seen && ParentEdge(s, c, p) :: p != a && (p in seen || p in queue)
  }

  lemma NewFrontier(s: Store, d: Sha, a: Sha)
    ensures Frontier(s, {}, [d], d, a)
  {}

  lemma FrontierSkips(s: Store, seen: set<Sha>, c: Sha, rest: seq<Sha>, d: Sha, a: Sha)
    requires Frontier(s, seen, [c] + rest, d, a) && c in seen
    ensures Frontier(s, seen, rest, d, a)
  {}

  lemma FrontierGrows(s: Store, seen: set<Sha>, c: Sha, rest: seq<Sha>, d: Sha, a: Sha)
    requires Frontier(s, seen, [c] + rest, d, a) && a !in ParentsOf(s, c)
    ensures Frontier(s, seen + {c}, rest + ParentsOf(s, c), d, a)
  {}

  lemma FrontierCloses(s: Store, seen: set<Sha>, d: Sha, a: Sha)
    requires Frontier(s, seen, [], d, a)
    ensures !Reaches(s, d, a)
  {
    hide Reaches;
    ClosedHistory(s, seen, d, a);
  }

  /** Every commit that is some recorded parent. */
  ghost function RecordedParents(s: Store): set<Sha> {
    (set c, p | c in s.commits.Keys && p in s.commits[c].parents :: p) + (set c | c in s.parents.Keys :: s.parents[c])
  }

  lemma EdgeIsRecorded(s: Store, c: Sha, p: Sha)
    requires ParentEdge(s, c, p)
    ensures p in RecordedParents(s)
  {}

  /** A positive distance is a chain of parent edges. */
  lemma {:induction false} DistanceDescends(s: Store, d: Sha, a: Sha, r: nat)
    requires r > 0 && a != "" && Hop(s.parents, d, r) == a
    ensures Reaches(s, d, a)
    decreases r
  {
    var p := Next(s.parents, d);
    assert p != "";
    assert ParentEdge(s, d, p);
    OneEdge(s, d, p);
    if r > 1 {
      DistanceDescends(s, p, a, r - 1);
      ReachesTransitive(s, d, p, a);
    }
  }

  // ---- refs ----

  function Own(refs: map<Repo, map<Ref, Sha>>, repo: Repo, ref: Ref): Option<Sha> {
    if repo in refs && ref in refs[repo] then Some(refs[repo][ref]) else None
  }

  function RefIn(s: Store, repo: Repo, ref: Ref): Option<Sha> {
    match Own(s.refs, repo, ref)
    case Some(sha) => Some(sha)
    case None => if ref in s.shared then Some(s.shared[ref]) else None
  }

  function Pointed(refs: map<Repo, map<Ref, Sha>>, repo: Repo, ref: Ref, sha: Sha): map<Repo, map<Ref, Sha>> {
    refs[repo := (if repo in refs then refs[repo] else map[])[ref := sha]]
  }

  predicate KnownCommit(s: Store, sha: Sha) {
    || sha == BASE_SHA
    || sha in s.commits
    || sha in s.parents
    || (exists repo, ref :: repo in s.refs && ref in s.refs[repo] && s.refs[repo][ref] == sha)
    || (exists ref :: ref in s.shared && s.shared[ref] == sha)
    || (exists c :: c in s.parents && s.parents[c] == sha)
  }

  /** Every name a ref may be pointed at: the fixed base, what was pushed, what SetParents names on
      either side, and what any ref points at already. */
  ghost function Pointable(s: Store): set<Sha> {
    {"00000000000000000000000000000000000000ba"} + s.commits.Keys + s.parents.Keys + s.parents.Values
    + s.shared.Values + (set repo, ref | repo in s.refs.Keys && ref in s.refs[repo].Keys :: s.refs[repo][ref])
  }

  lemma KnownIsPointable(s: Store, sha: Sha)
    ensures KnownCommit(s, sha) <==> sha in Pointable(s)
  {}

  /** One ref of one repository was pointed at sha, and no other moved. */
  ghost predicate OnlyPointed(
    before: map<Repo, map<Ref, Sha>>, after: map<Repo, map<Ref, Sha>>, repo: Repo, ref: Ref, sha: Sha)
  {
    && repo in after && ref in after[repo] && after[repo][ref] == sha
    && (forall r | r in before :: r in after)
    && (forall r, f | r in after && f in after[r] && !(r == repo && f == ref) ::
          r in before && f in before[r] && before[r][f] == after[r][f])
    && (forall r, f | r in before && f in before[r] && !(r == repo && f == ref) :: f in after[r])
  }

  function CreateReply(s: Store, repo: Repo, ref: Ref, sha: Sha): Reply {
    if RefIn(s, repo, ref).Some? then Refused(RefExists)
    else if !KnownCommit(s, sha) then Refused(ObjectMissing)
    else Done(CREATED)
  }

  ghost function UpdateReply(s: Store, repo: Repo, ref: Ref, sha: Sha, force: bool): Reply {
    var current := RefIn(s, repo, ref);
    if current.None? then Refused(RefMissing)
    else if !KnownCommit(s, sha) then Refused(ObjectMissing)
    else if !force && sha != current.value && !Reaches(s, sha, current.value) then Refused(NotFastForward)
    else Done(OK)
  }

  function Status(r: Reply): nat {
    if r.Done? then r.status else UNPROCESSABLE
  }

  /** The store after a logged write: an accepted one points the ref, a refused one only enters the log. */
  function Written(s: Store, w: RefWrite): Store {
    s.(refs := if w.Accepted() then Pointed(s.refs, w.repo, w.ref, w.sha) else s.refs, writes := s.writes + [w])
  }

  function CreateRefWrite(s: Store, repo: Repo, ref: Ref, sha: Sha): RefWrite {
    RefWrite(repo, Create, ref, sha, false, Status(CreateReply(s, repo, ref, sha)))
  }

  ghost function UpdateRefWrite(s: Store, repo: Repo, ref: Ref, sha: Sha, force: bool): RefWrite {
    RefWrite(repo, Update, ref, sha, force, Status(UpdateReply(s, repo, ref, sha, force)))
  }

  // ---- objects ----

  function Committed(s: Store, rec: CommitRec): Store {
    s.(next := s.next + 1, commits := s.commits[ObjectName('c', s.next + 1) := rec])
  }

  function BlobStored(s: Store, content: Bytes): Store {
    s.(next := s.next + 1, blobs := s.blobs[ObjectName('b', s.next + 1) := content])
  }

  function TreeStored(s: Store, entries: seq<TreeEntry>): Store {
    s.(next := s.next + 1, trees := s.trees[ObjectName('t', s.next + 1) := TreeOf(entries)])
  }

  /** The tree a list of entries makes: of two for one path the later one counts. */
  function TreeOf(entries: seq<TreeEntry>): map<Path, Sha> {
    if entries == [] then map[]
    else
      var last := entries[|entries| - 1];
      TreeOf(entries[..|entries| - 1])[last.path := if last.sha.Some? then last.sha.value else ""]
  }

  lemma TreeOfNext(entries: seq<TreeEntry>, k: nat)
    requires k < |entries|
    ensures var e := entries[k];
      TreeOf(entries[..k + 1]) == TreeOf(entries[..k])[e.path := if e.sha.Some? then e.sha.value else ""]
  {
    assert entries[..k + 1][..k] == entries[..k];
  }

  /** The last entry for a path decides what the tree says of it. */
  lemma {:induction false} LastEntryCounts(entries: seq<TreeEntry>, k: nat)
    requires k < |entries| && forall j | k < j < |entries| :: entries[j].path != entries[k].path
    ensures var tree, e := TreeOf(entries), entries[k];
      e.path in tree && tree[e.path] == if e.sha.Some? then e.sha.value else ""
    decreases |entries|
  {
    if k < |entries| - 1 {
      LastEntryCounts(entries[..|entries| - 1], k);
    }
  }

  /** A pushed commit read back; a file deleted by its tree has no content. */
  datatype Commit = Commit(message: string, parents: seq<Sha>, files: map<Path, Option<Bytes>>)

  function FileOf(s: Store, blob: Sha): Option<Bytes> {
    if blob != "" && blob in s.blobs then Some(s.blobs[blob]) else None
  }

  function TreeAt(s: Store, tree: Sha): map<Path, Sha> {
    if tree in s.trees then s.trees[tree] else map[]
  }

  function FilesOf(s: Store, tree: Sha): map<Path, Option<Bytes>> {
    map path | path in TreeAt(s, tree) :: FileOf(s, TreeAt(s, tree)[path])
  }

  /** The commit has the record's message and parents, and for each path of its tree the content of
      the blob there, none for a deletion or a blob never pushed. */
  ghost predicate ReadsAs(s: Store, rec: CommitRec, c: Commit) {
    && c.message == rec.message && c.parents == rec.parents
    && (if rec.tree !in s.trees then c.files == map[]
        else
          var tree := s.trees[rec.tree];
          && c.files.Keys == tree.Keys
          && forall path | path in tree ::
               c.files[path] == if tree[path] != "" && tree[path] in s.blobs then Some(s.blobs[tree[path]]) else None)
  }

  function Snapshot(s: Store, sha: Sha): Option<Commit> {
    if sha !in s.commits then None
    else
      var rec := s.commits[sha];
      Some(Commit(rec.message, rec.parents, FilesOf(s, rec.tree)))
  }

  class Server {
    var blobs: map<Sha, Bytes>
    var trees: map<Sha, map<Path, Sha>>
    var commits: map<Sha, CommitRec>
    var parents: map<Sha, Sha>
    var refs: map<Repo, map<Ref, Sha>>
    var shared: map<Ref, Sha>
    var next: nat
    var writes: seq<RefWrite>
    var compares: nat
    var patches: map<string, string>

    ghost function State(): Store
      reads this
    {
      Store(blobs, trees, commits, parents, refs, shared, next, writes)
    }

    constructor ()
      ensures State() == EMPTY && compares == 0 && patches == map[]
    {
      blobs, trees, commits, parents, refs, shared := map[], map[], map[], map[], map[], map[];
      next, writes, compares, patches := 0, [], 0, map[];
    }

    /** The next object name of a kind; the number in it is spent. */
    method Mint(kind: char) returns (sha: Sha)
      modifies `next
      ensures sha == ObjectName(kind, next)
      ensures State() == old(State()).(next := old(next) + 1)
    {
      next := next + 1;
      sha := ObjectName(kind, next);
    }

    method CreateBlob(content: Bytes) returns (sha: Sha)
      modifies `next, `blobs
      ensures State() == BlobStored(old(State()), content)
      ensures sha in blobs && blobs[sha] == content
      ensures old(Numbered(State())) ==> sha !in old(blobs)
    {
      hide ObjectName, Numbered;
      ghost var before := State();
      sha := Mint('b');
      blobs := blobs[sha := content];
      if Numbered(before) {
        MintedIsNew(before);
      }
    }

    /** The loop over the entries of a tree asked for. */
    static method Gathered(entries: seq<TreeEntry>) returns (tree: map<Path, Sha>)
      ensures tree == TreeOf(entries)
    {
      tree := map[];
      for k := 0 to |entries|
        invariant tree == TreeOf(entries[..k])
      {
        TreeOfNext(entries, k);
        if entries[k].sha.None? {
          tree := tree[entries[k].path := ""];
          continue;
        }
        tree := tree[entries[k].path := entries[k].sha.value];
      }
      assert entries[..|entries|] == entries;
    }

    method CreateTree(entries: seq<TreeEntry>) returns (sha: Sha)
      modifies `next, `trees
      ensures State() == TreeStored(old(State()), entries)
      ensures sha in trees && trees[sha] == TreeOf(entries)
      ensures old(Numbered(State())) ==> sha !in old(trees)
    {
      ghost var before := State();
      sha := Mint('t');
      assert sha == ObjectName('t', before.next + 1);
      hide Numbered, ObjectName, TreeOf;
      var tree := Gathered(entries);
      trees := trees[sha := tree];
      if Numbered(before) {
        MintedIsNew(before);
      }
    }

    method CreateCommit(message: string, tree: Sha, parentSHAs: seq<Sha>) returns (sha: Sha)
      modifies `next, `commits
      ensures State() == Committed(old(State()), CommitRec(message, tree, parentSHAs))
      ensures sha in commits && commits[sha] == CommitRec(message, tree, parentSHAs)
      ensures old(Numbered(State())) ==> sha !in old(commits) && KeepsAncestry(old(State()), State())
    {
      hide ObjectName, Numbered, ParentEdge;
      ghost var before := State();
      sha := Mint('c');
      commits := commits[sha := CommitRec(message, tree, parentSHAs)];
      if Numbered(before) {
        CommitKeepsAncestry(before, CommitRec(message, tree, parentSHAs));
      }
    }

    /** The tree's paths are visited in no fixed order. */
    method CommitOf(sha: Sha) returns (commit: Option<Commit>)
      ensures commit == Snapshot(State(), sha)
      ensures commit.Some? <==> sha in commits
      ensures commit.Some? ==> ReadsAs(State(), commits[sha], commit.value)
    {
      if sha !in commits {
        return None;
      }
      var rec := commits[sha];
      var tree := if rec.tree in trees then trees[rec.tree] else map[];
      var files: map<Path, Option<Bytes>> := map[];
      var left := tree.Keys;
      while left != {}
        invariant left <= tree.Keys && files.Keys == tree.Keys - left
        invariant forall path | path in files :: files[path] == FileOf(State(), tree[path])
        decreases left
      {
        var path :| path in left;
        left := left - {path};
        var blob := tree[path];
        if blob == "" {
          files := files[path := None];
          continue;
        }
        files := files[path := if blob in blobs then Some(blobs[blob]) else None];
      }
      assert files == FilesOf(State(), rec.tree);
      commit := Some(Commit(rec.message, rec.parents, files));
    }

    /** The search's inner loop: the parents of one commit, up to the one looked for. */
    method Enqueue(queue: seq<Sha>, ps: seq<Sha>, ancestor: Sha) returns (met: bool, longer: seq<Sha>)
      ensures met <==> ancestor in ps
      ensures !met ==> longer == queue + ps
    {
      longer := queue;
      for i := 0 to |ps|
        invariant ancestor !in ps[..i]
        invariant longer == queue + ps[..i]
      {
        assert ps[..i + 1] == ps[..i] + [ps[i]];
        if ps[i] == ancestor {
          return true, longer;
        }
        longer := longer + [ps[i]];
      }
      assert ps[..|ps|] == ps;
      met := false;
    }

    /** True exactly when a non-empty chain of parent edges leads from descendant to ancestor. */
    method Descends(descendant: Sha, ancestor: Sha) returns (found: bool)
      ensures found <==> Reaches(State(), descendant, ancestor)
    {
      ghost var s := State();
      assert s.commits == commits && s.parents == parents;
      hide *;
      ghost var nodes := RecordedParents(s) + {descendant};
      StartWaits(s, descendant);
      var seen: set<Sha> := {};
      var queue := [descendant];
      NewFrontier(s, descendant, ancestor);
      while |queue| > 0
        invariant seen <= nodes && Waiting(s, queue, descendant)
        invariant Frontier(s, seen, queue, descendant, ancestor)
        decreases nodes - seen, |queue|
      {
        var c := queue[0];
        ghost var waiting := queue;
        queue := queue[1..];
        assert waiting == [c] + queue;
        NextWaits(s, c, queue, descendant);
        if c in seen {
          FrontierSkips(s, seen, c, queue, descendant, ancestor);
          continue;
        }
        ghost var before, rest := seen, queue;
        seen := seen + {c};
        FewerLeft(nodes, before, c);
        var ps := if c in commits then commits[c].parents else [];
        if c in parents {
          ps := ps + [parents[c]];
        }
        ParentsAre(s, c);
        assert ps == ParentsOf(s, c);
        var met: bool;
        met, queue := Enqueue(queue, ps, ancestor);
        if met {
          ReachedThrough(s, descendant, c, ancestor);
          return true;
        }
        ParentsWait(s, rest, descendant, c);
        FrontierGrows(s, before, c, rest, descendant, ancestor);
      }
      FrontierCloses(s, seen, descendant, ancestor);
      found := false;
    }

    method CreateRef(repo: Repo, name: string, sha: Sha) returns (reply: Reply)
      modifies `refs, `writes
      ensures var ref := TrimPrefix(name, "refs/");
        var accepted := !Resolves(old(State()), repo, ref) && sha in Pointable(old(State()));
        && reply == (if Resolves(old(State()), repo, ref) then Refused(RefExists)
                     else if !accepted then Refused(ObjectMissing) else Done(201))
        && writes == old(writes) + [RefWrite(repo, Create, ref, sha, false, if accepted then 201 else 422)]
        && (if accepted then OnlyPointed(old(refs), refs, repo, ref, sha) else refs == old(refs))
      ensures State() == Step(old(State()), NewRef(repo, TrimPrefix(name, "refs/"), sha))
    {
      var ref := TrimPrefix(name, "refs/");
      WhatCreateRefDoes(State(), repo, ref, sha);
      hide Reaches, KnownCommit, Pointable, OnlyPointed, Pointed, RefIn;
      var s := Store(blobs, trees, commits, parents, refs, shared, next, writes);
      var write := RefWrite(repo, Create, ref, sha, false, UNPROCESSABLE);
      if RefIn(s, repo, ref).Some? {
        reply := Refused(RefExists);
      } else if !KnownCommit(s, sha) {
        reply := Refused(ObjectMissing);
      } else {
        SetRef(repo, ref, sha);
        write := write.(status := CREATED);
        reply := Done(CREATED);
      }
      writes := writes + [write];
    }

    method UpdateRef(repo: Repo, ref: Ref, sha: Sha, force: bool) returns (reply: Reply)
      modifies `refs, `writes
      ensures var s := old(State());
        var forward := Resolves(s, repo, ref) && (force || Leaves(s, repo, ref, sha));
        var accepted := sha in Pointable(s) && forward;
        && reply == (if !Resolves(s, repo, ref) then Refused(RefMissing)
                     else if sha !in Pointable(s) then Refused(ObjectMissing)
                     else if !forward then Refused(NotFastForward) else Done(200))
        && writes == old(writes) + [RefWrite(repo, Update, ref, sha, force, if accepted then 200 else 422)]
        && (if accepted then OnlyPointed(old(refs), refs, repo, ref, sha) else refs == old(refs))
      ensures State() == Step(old(State()), MoveRef(repo, ref, sha, force))
    {
      hide Reaches, KnownCommit, Pointable, OnlyPointed, Pointed, RefIn, Leaves, Resolves;
      var s := Store(blobs, trees, commits, parents, refs, shared, next, writes);
      var write := RefWrite(repo, Update, ref, sha, force, UNPROCESSABLE);
      var current := RefIn(s, repo, ref);
      var forward := false;
      if current.Some? && !force && sha != current.value {
        forward := Descends(sha, current.value);
      }
      if current.None? {
        reply := Refused(RefMissing);
      } else if !KnownCommit(s, sha) {
        reply := Refused(ObjectMissing);
      } else if !force && sha != current.value && !forward {
        reply := Refused(NotFastForward);
      } else {
        SetRef(repo, ref, sha);
        write := write.(status := OK);
        reply := Done(OK);
      }
      writes := writes + [write];
      assert reply == UpdateReply(s, repo, ref, sha, force);
      hide UpdateReply;
      WhatUpdateRefDoes(s, repo, ref, sha, force);
    }

    method SetRef(repo: Repo, ref: Ref, sha: Sha)
      modifies `refs
      ensures refs == Pointed(old(refs), repo, ref, sha)
      ensures OnlyPointed(old(refs), refs, repo, ref, sha)
    {
      if repo !in refs {
        refs := refs[repo := map[]];
      }
      refs := refs[repo := refs[repo][ref := sha]];
    }

    method SetParents(ancestry: map<Sha, Sha>)
      modifies `parents
      ensures State() == old(State()).(parents := old(parents) + ancestry)
    {
      parents := parents + ancestry;
    }

    method SetBranch(name: string, sha: Sha)
      modifies `shared
      ensures State() == old(State()).(shared := old(shared)["heads/" + name := sha])
    {
      shared := shared["heads/" + name := sha];
    }

    /** The repositories are visited in no fixed order; neither answer depends on it when n is 1. */
    method Owners(ref: Ref) returns (n: nat, sha: Sha)
      ensures n == |OwnersOf(refs, ref)|
      ensures n == 1 ==> forall repo | repo in OwnersOf(refs, ref) :: sha == refs[repo][ref]
    {
      n, sha := 0, "";
      var all := refs;
      var left := all.Keys;
      ghost var counted: set<Repo> := {};
      while left != {}
        invariant left <= all.Keys
        invariant forall repo :: repo in counted <==> repo in all && repo !in left && ref in all[repo]
        invariant n == |counted|
        invariant n == 1 ==> forall repo | repo in counted :: sha == all[repo][ref]
        decreases left
      {
        var repo :| repo in left;
        left := left - {repo};
        if ref in all[repo] {
          n, sha := n + 1, all[repo][ref];
          counted := counted + {repo};
          assert n == 1 ==> counted == {repo};
        }
      }
      assert counted == OwnersOf(refs, ref);
    }

    method AnyRef(ref: Ref) returns (sha: Option<Sha>)
      ensures forall repo | OwnersOf(refs, ref) == {repo} :: sha == Some(refs[repo][ref])
      ensures |OwnersOf(refs, ref)| > 1 ==> sha == None
      ensures OwnersOf(refs, ref) == {} && ref in shared ==> sha == Some(shared[ref])
      ensures OwnersOf(refs, ref) == {} && ref !in shared ==> sha == None
    {
      var n, at := Owners(ref);
      if n == 1 {
        var repo := OnlyOwner(refs, ref);
        sha := Some(at);
      } else if n > 1 {
        sha := None;
      } else {
        sha := if ref in shared then Some(shared[ref]) else None;
      }
    }

    method Resolve(repo: Repo, rev: string) returns (sha: Sha)
      ensures var ref := "heads/" + rev; var own := repo in refs && ref in refs[repo];
        && (own ==> sha == refs[repo][ref])
        && (!own && ref in shared ==> sha == shared[ref])
        && (!own && ref !in shared ==> sha == rev)
      ensures sha == Resolved(State(), repo, rev)
    {
      var at := RefIn(Store(blobs, trees, commits, parents, refs, shared, next, writes), repo, "heads/" + rev);
      sha := if at.Some? then at.value else rev;
    }

    /** The walk over parents ends exactly when it does not loop, and then with the distance. */
    method Steps(descendant: Sha, ancestor: Sha) returns (n: nat)
      requires !Loops(parents, descendant, ancestor)
      ensures IsDistance(parents, descendant, ancestor, n)
    {
      HaltsUnlessItLoops(parents, descendant, ancestor);
      ghost var stop: nat :|
        stop > 0 && (Hop(parents, descendant, stop) == "" || Hop(parents, descendant, stop) == ancestor);
      n := 0;
      var c := Next(parents, descendant);
      HopAdd(parents, descendant, 1, 0);
      while c != ""
        invariant c == Hop(parents, descendant, n + 1)
        invariant forall k: nat | 0 < k <= n :: Hop(parents, descendant, k) !in {"", ancestor}
        invariant n < stop
        decreases stop - n
      {
        n := n + 1;
        if c == ancestor {
          return n;
        }
        HopAdd(parents, descendant, n, 1);
        c := Next(parents, c);
      }
      HistoryEnded(parents, descendant, n + 1);
      n := 0;
    }

    method SetComparePatch(base: string, head: string, patch: string)
      modifies `patches
      ensures patches == old(patches)[base + DOTS + head := patch]
    {
      patches := patches[base + DOTS + head := patch];
    }

    /** A spec without dots is not found and not counted. A patch is answered from the patches
        supplied, whatever the history. */
    method Compare(repo: Repo, spec: string, patchAsked: bool) returns (answer: CompareAnswer)
      requires !patchAsked ==>
        match Cut(spec) {
          case None => true
          case Some((b, h)) => WalksEnd(parents, Resolved(State(), repo, b), Resolved(State(), repo, h))
        }
      modifies `compares
      ensures match Cut(spec)
              case None => answer == NotFound && compares == old(compares)
              case Some((b, h)) =>
                && compares == old(compares) + 1
                && if patchAsked then answer == if spec in patches then Patch(patches[spec]) else NotFound
                   else
                     && answer.Compared?
                     && IsComparison(
                       parents, Resolved(State(), repo, b), Resolved(State(), repo, h), answer.comparison)
    {
      var cut := Cut(spec);
      if cut.None? {
        return NotFound;
      }
      var (b, h) := cut.value;
      compares := compares + 1;
      if patchAsked {
        CutIsFirst(spec);
        if b + DOTS + h !in patches {
          return NotFound;
        }
        return Patch(patches[b + DOTS + h]);
      }
      var base := Resolve(repo, b);
      var head := Resolve(repo, h);
      var c := Related(base, head);
      answer := Compared(c);
    }

    method Related(base: Sha, head: Sha) returns (c: Comparison)
      requires WalksEnd(parents, base, head)
      ensures IsComparison(parents, base, head, c)
    {
      if base == head {
        return Comparison("identical", 0, 0);
      }
      var behind := Steps(base, head);
      if behind > 0 {
        return Comparison("behind", 0, behind);
      }
      var ahead := Steps(head, base);
      if ahead > 0 {
        return Comparison("ahead", ahead, 0);
      }
      c := Comparison("diverged", 0, 0);
    }
  }

  const DOTS: string := "..."

  datatype CompareAnswer = NotFound | Patch(text: string) | Compared(comparison: Comparison)

  /** The walks a comparison makes do not loop. */
  ghost predicate WalksEnd(parents: map<Sha, Sha>, base: Sha, head: Sha) {
    base != head ==>
      !Loops(parents, base, head) && (IsDistance(parents, base, head, 0) ==> !Loops(parents, head, base))
  }

  /** strings.Cut at the dots: what is before the first ones, and what is after. */
  function Cut(spec: string): Option<(string, string)> {
    if DOTS <= spec then Some(("", spec[|DOTS|..]))
    else if spec == "" then None
    else
      match Cut(spec[1..])
      case None => None
      case Some((b, h)) => Some(([spec[0]] + b, h))
  }

  predicate DotsAt(spec: string, k: nat) {
    k <= |spec| && DOTS <= spec[k..]
  }

  lemma {:induction false} CutIsFirst(spec: string)
    ensures match Cut(spec)
            case None => forall k: nat :: !DotsAt(spec, k)
            case Some((b, h)) =>
              spec == b + DOTS + h && DotsAt(spec, |b|) && forall k: nat | k < |b| :: !DotsAt(spec, k)
  {
    assert spec[0..] == spec;
    if DOTS <= spec {
      assert spec == "" + DOTS + spec[|DOTS|..];
    } else if spec != "" {
      CutIsFirst(spec[1..]);
      forall k: nat | k > 0 ensures DotsAt(spec, k) <==> DotsAt(spec[1..], k - 1) {
        DotsLater(spec, k);
      }
      hide DotsAt;
      assert !DotsAt(spec, 0) by {
        NoDotsYet(spec);
      }
      match Cut(spec[1..]) {
        case None =>
        case Some((b, h)) =>
          CutLater(spec, b, h);
      }
    }
  }

  lemma NoDotsYet(spec: string)
    ensures DotsAt(spec, 0) <==> DOTS <= spec
  {
    assert spec[0..] == spec;
  }

  lemma DotsLater(spec: string, k: nat)
    requires spec != "" && k > 0
    ensures DotsAt(spec, k) <==> DotsAt(spec[1..], k - 1)
  {
    assert k <= |spec| ==> spec[k..] == spec[1..][k - 1..];
  }

  lemma CutLater(spec: string, b: string, h: string)
    requires spec != "" && spec[1..] == b + DOTS + h
    ensures spec == [spec[0]] + b + DOTS + h
  {
    assert spec == [spec[0]] + spec[1..];
  }

  /** A patch supplied for base...head is found under that spec, however the spec is cut. */
  lemma SuppliedPatchIsFound(patches: map<string, string>, base: string, head: string, patch: string)
    ensures var spec := base + DOTS + head; var after := patches[spec := patch];
      && Cut(spec).Some?
      && var (b, h) := Cut(spec).value;
      && b + DOTS + h == spec && |b| <= |base| && after[b + DOTS + h] == patch
  {
    var spec := base + DOTS + head;
    CutIsFirst(spec);
    assert spec[|base|..] == DOTS + head;
    assert DotsAt(spec, |base|);
  }

  /** The repository has the ref, or sees a shared one. */
  predicate Resolves(s: Store, repo: Repo, ref: Ref) {
    (repo in s.refs && ref in s.refs[repo]) || ref in s.shared
  }

  /** sha is where the ref points, or has that in its history. */
  ghost predicate Leaves(s: Store, repo: Repo, ref: Ref, sha: Sha)
    requires Resolves(s, repo, ref)
  {
    var head := if repo in s.refs && ref in s.refs[repo] then s.refs[repo][ref] else s.shared[ref];
    sha == head || Reaches(s, sha, head)
  }

  /** A request to create a ref, from any store: refused for one that resolves and then for a name
      nothing is known by, else accepted; logged as it was answered. */
  lemma WhatCreateRefDoes(s: Store, repo: Repo, ref: Ref, sha: Sha)
    ensures var t := Step(s, NewRef(repo, ref, sha));
      var accepted := !Resolves(s, repo, ref) && sha in Pointable(s);
      && CreateReply(s, repo, ref, sha)
         == (if Resolves(s, repo, ref) then Refused(RefExists)
             else if !accepted then Refused(ObjectMissing) else Done(201))
      && t.writes == s.writes + [RefWrite(repo, Create, ref, sha, false, if accepted then 201 else 422)]
      && (if accepted then OnlyPointed(s.refs, t.refs, repo, ref, sha) else t.refs == s.refs)
      && t == s.(refs := t.refs, writes := t.writes)
  {
    KnownIsPointable(s, sha);
    PointedOnly(s.refs, repo, ref, sha);
    hide KnownCommit, Pointable, OnlyPointed, Pointed;
  }

  /** A request to move one: refused for one that does not resolve, then for a name nothing is known
      by, then, unless forced, for one that would leave the history of where the ref points. */
  lemma WhatUpdateRefDoes(s: Store, repo: Repo, ref: Ref, sha: Sha, force: bool)
    ensures var t := Step(s, MoveRef(repo, ref, sha, force));
      var forward := Resolves(s, repo, ref) && (force || Leaves(s, repo, ref, sha));
      var accepted := sha in Pointable(s) && forward;
      && UpdateReply(s, repo, ref, sha, force)
         == (if !Resolves(s, repo, ref) then Refused(RefMissing)
             else if sha !in Pointable(s) then Refused(ObjectMissing)
             else if !forward then Refused(NotFastForward) else Done(200))
      && t.writes == s.writes + [RefWrite(repo, Update, ref, sha, force, if accepted then 200 else 422)]
      && (if accepted then OnlyPointed(s.refs, t.refs, repo, ref, sha) else t.refs == s.refs)
      && t == s.(refs := t.refs, writes := t.writes)
  {
    KnownIsPointable(s, sha);
    PointedOnly(s.refs, repo, ref, sha);
    hide KnownCommit, Pointable, OnlyPointed, Pointed, Reaches;
  }

  lemma PointedOnly(refs: map<Repo, map<Ref, Sha>>, repo: Repo, ref: Ref, sha: Sha)
    ensures OnlyPointed(refs, Pointed(refs, repo, ref, sha), repo, ref, sha)
  {}

  function Resolved(s: Store, repo: Repo, rev: string): Sha {
    var at := RefIn(s, repo, "heads/" + rev);
    if at.Some? then at.value else rev
  }

  ghost function OwnersOf(refs: map<Repo, map<Ref, Sha>>, ref: Ref): set<Repo> {
    set repo | repo in refs.Keys && ref in refs[repo]
  }

  lemma OnlyOwner(refs: map<Repo, map<Ref, Sha>>, ref: Ref) returns (repo: Repo)
    requires |OwnersOf(refs, ref)| == 1
    ensures OwnersOf(refs, ref) == {repo}
  {
    var owners := OwnersOf(refs, ref);
    repo :| repo in owners;
    assert |owners - {repo}| == 0;
    assert owners == {repo} + (owners - {repo});
  }

  lemma ReachedThrough(s: Store, d: Sha, c: Sha, p: Sha)
    requires (c == d || Reaches(s, d, c)) && ParentEdge(s, c, p)
    ensures Reaches(s, d, p)
  {
    OneEdge(s, c, p);
    if c != d {
      ReachesTransitive(s, d, c, p);
    }
  }

  /** The waiting commits are d or in d's history. */
  ghost predicate Waiting(s: Store, queue: seq<Sha>, d: Sha) {
    forall c | c in queue :: c == d || (Reaches(s, d, c) && c in RecordedParents(s))
  }

  lemma FewerLeft(nodes: set<Sha>, seen: set<Sha>, c: Sha)
    requires c in nodes && c !in seen
    ensures nodes - (seen + {c}) < nodes - seen
  {
    assert c in nodes - seen;
  }

  lemma StartWaits(s: Store, d: Sha)
    ensures Waiting(s, [d], d)
  {}

  lemma NextWaits(s: Store, c: Sha, rest: seq<Sha>, d: Sha)
    requires Waiting(s, [c] + rest, d)
    ensures Waiting(s, rest, d) && (c == d || (Reaches(s, d, c) && c in RecordedParents(s)))
  {
    hide Reaches, RecordedParents;
    assert c in [c] + rest;
  }

  lemma ParentsWait(s: Store, rest: seq<Sha>, d: Sha, c: Sha)
    requires Waiting(s, rest, d) && (c == d || Reaches(s, d, c))
    ensures Waiting(s, rest + ParentsOf(s, c), d)
  {
    hide Reaches, RecordedParents;
    forall p | p in ParentsOf(s, c) ensures Reaches(s, d, p) && p in RecordedParents(s) {
      ReachedThrough(s, d, c, p);
      EdgeIsRecorded(s, c, p);
    }
  }

  // ---- every run ----

  datatype Op =
    | BlobObject(content: Bytes)
    | TreeObject(entries: seq<TreeEntry>)
    | CommitObject(rec: CommitRec)
    | NewRef(repo: Repo, ref: Ref, sha: Sha)
    | MoveRef(repo: Repo, ref: Ref, sha: Sha, force: bool)
    | Ancestry(ancestry: map<Sha, Sha>)
    | SharedBranch(ref: Ref, sha: Sha)

  ghost function Step(s: Store, op: Op): Store {
    match op
    case BlobObject(content) => BlobStored(s, content)
    case TreeObject(entries) => TreeStored(s, entries)
    case CommitObject(rec) => Committed(s, rec)
    case NewRef(repo, ref, sha) => Written(s, CreateRefWrite(s, repo, ref, sha))
    case MoveRef(repo, ref, sha, force) => Written(s, UpdateRefWrite(s, repo, ref, sha, force))
    case Ancestry(ancestry) => s.(parents := s.parents + ancestry)
    case SharedBranch(ref, sha) => s.(shared := s.shared[ref := sha])
  }

  ghost function Run(ops: seq<Op>): Store {
    if ops == [] then EMPTY else Step(Run(ops[..|ops| - 1]), ops[|ops| - 1])
  }

  /** The pushed objects carry the names numbered so far, and no others. */
  ghost predicate Numbered(s: Store) {
    && (forall b | b in s.blobs :: NamedUpTo('b', b, s.next))
    && (forall t | t in s.trees :: NamedUpTo('t', t, s.next))
    && (forall c | c in s.commits :: NamedUpTo('c', c, s.next))
  }

  ghost predicate NamedUpTo(kind: char, name: Sha, n: nat) {
    exists k: nat :: k <= n && name == ObjectName(kind, k)
  }

  lemma NextNameIsNew(kind: char, n: nat)
    ensures !NamedUpTo(kind, ObjectName(kind, n + 1), n)
  {
    if NamedUpTo(kind, ObjectName(kind, n + 1), n) {
      var k: nat :| k <= n && ObjectName(kind, n + 1) == ObjectName(kind, k);
      ObjectNameIsFresh(kind, k, n + 1);
    }
  }

  lemma MintedIsNew(s: Store)
    requires Numbered(s)
    ensures ObjectName('b', s.next + 1) !in s.blobs
    ensures ObjectName('t', s.next + 1) !in s.trees
    ensures ObjectName('c', s.next + 1) !in s.commits
  {
    hide NamedUpTo, ObjectName;
    NextNameIsNew('b', s.next);
    NextNameIsNew('t', s.next);
    NextNameIsNew('c', s.next);
  }

  lemma CommitKeepsAncestry(s: Store, rec: CommitRec)
    requires Numbered(s)
    ensures ObjectName('c', s.next + 1) !in s.commits
    ensures KeepsAncestry(s, Committed(s, rec))
  {
    hide ObjectName;
    MintedIsNew(s);
  }

  lemma StepKeepsNumbered(s: Store, op: Op)
    requires Numbered(s)
    ensures Numbered(Step(s, op))
  {}

  lemma {:induction false} RunIsNumbered(ops: seq<Op>)
    ensures Numbered(Run(ops))
  {
    hide Step, Numbered;
    if ops != [] {
      RunIsNumbered(ops[..|ops| - 1]);
      StepKeepsNumbered(Run(ops[..|ops| - 1]), ops[|ops| - 1]);
    } else {
      EmptyIsNumbered();
    }
  }

  lemma EmptyIsNumbered()
    ensures Numbered(EMPTY)
  {}

  // ---- pushed objects stay as they are ----

  ghost predicate KeepsObjects(s: Store, t: Store) {
    && (forall b | b in s.blobs :: b in t.blobs && t.blobs[b] == s.blobs[b])
    && (forall b | b in s.trees :: b in t.trees && t.trees[b] == s.trees[b])
    && (forall c | c in s.commits :: c in t.commits && t.commits[c] == s.commits[c])
  }

  lemma StepKeepsObjects(s: Store, op: Op)
    requires Numbered(s)
    ensures KeepsObjects(s, Step(s, op))
  {
    hide ObjectName, Numbered, TreeOf;
    MintedIsNew(s);
  }

  /** No object is ever overwritten, whatever is pushed after it. */
  lemma {:induction false} PushedObjectsAreKept(ops: seq<Op>, more: seq<Op>)
    ensures KeepsObjects(Run(ops), Run(ops + more))
  {
    hide Step, Numbered;
    if more == [] {
      assert ops + more == ops;
    } else {
      var n := |more| - 1;
      PushedObjectsAreKept(ops, more[..n]);
      assert (ops + more)[..|ops| + n] == ops + more[..n];
      RunIsNumbered(ops + more[..n]);
      StepKeepsObjects(Run(ops + more[..n]), more[n]);
    }
  }

  /** Every object the tree needs was pushed. */
  ghost predicate Complete(s: Store, tree: Sha) {
    && tree in s.trees
    && forall path | path in s.trees[tree] :: s.trees[tree][path] == "" || s.trees[tree][path] in s.blobs
  }

  lemma RunOneMore(ops: seq<Op>, op: Op)
    ensures Run(ops + [op]) == Step(Run(ops), op)
  {
    assert (ops + [op])[..|ops|] == ops;
  }

  /** A commit pushed with all its objects reads back as it was pushed, for ever. */
  lemma {:induction false} CommitReadsBack(ops: seq<Op>, rec: CommitRec, more: seq<Op>)
    requires Complete(Run(ops), rec.tree)
    ensures var s, t := Run(ops), Run(ops + [CommitObject(rec)] + more);
      var sha := ObjectName('c', s.next + 1);
      && Snapshot(t, sha).Some?
      && var c := Snapshot(t, sha).value;
      && c.message == rec.message && c.parents == rec.parents
      && c.files.Keys == s.trees[rec.tree].Keys
      && forall path | path in c.files ::
           var blob := s.trees[rec.tree][path];
           if blob == "" then c.files[path] == None else c.files[path] == Some(s.blobs[blob])
  {
    RunOneMore(ops, CommitObject(rec));
    RunIsNumbered(ops);
    assert Step(Run(ops), CommitObject(rec)) == Committed(Run(ops), rec);
    hide *;
    PushedObjectsAreKept(ops + [CommitObject(rec)], more);
    KeptReadsBack(Run(ops), Run(ops + [CommitObject(rec)] + more), rec);
    CompleteFiles(Run(ops), rec.tree);
  }

  lemma CompleteFiles(s: Store, tree: Sha)
    requires Complete(s, tree)
    ensures tree in s.trees && FilesOf(s, tree).Keys == s.trees[tree].Keys
    ensures forall path | path in FilesOf(s, tree) ::
      var blob := s.trees[tree][path];
      if blob == "" then FilesOf(s, tree)[path] == None
      else blob in s.blobs && FilesOf(s, tree)[path] == Some(s.blobs[blob])
  {}

  lemma KeptReadsBack(s: Store, t: Store, rec: CommitRec)
    requires Numbered(s) && Complete(s, rec.tree) && KeepsObjects(Committed(s, rec), t)
    ensures Snapshot(t, ObjectName('c', s.next + 1)) == Some(Commit(rec.message, rec.parents, FilesOf(s, rec.tree)))
  {
    hide ObjectName, Numbered, FileOf, Complete;
    StepKeepsObjects(s, CommitObject(rec));
    FilesAreKept(s, t, rec.tree);
  }

  lemma FilesAreKept(s: Store, t: Store, tree: Sha)
    requires KeepsObjects(s, t) && Complete(s, tree)
    ensures FilesOf(t, tree) == FilesOf(s, tree)
  {}

  // ---- the write log ----

  /** The refs that the accepted entries of a log leave, from none. */
  function Replay(writes: seq<RefWrite>): map<Repo, map<Ref, Sha>> {
    if writes == [] then map[]
    else
      var before, w := Replay(writes[..|writes| - 1]), writes[|writes| - 1];
      if w.Accepted() then Pointed(before, w.repo, w.ref, w.sha) else before
  }

  lemma StepKeepsReplayed(s: Store, op: Op)
    requires s.refs == Replay(s.writes)
    ensures Step(s, op).refs == Replay(Step(s, op).writes)
  {}

  /** In every reachable state the own refs are what the accepted log entries leave. */
  lemma {:induction false} RefsAreReplayed(ops: seq<Op>)
    ensures Run(ops).refs == Replay(Run(ops).writes)
  {
    hide Step;
    if ops != [] {
      RefsAreReplayed(ops[..|ops| - 1]);
      StepKeepsReplayed(Run(ops[..|ops| - 1]), ops[|ops| - 1]);
    }
  }

  /** A ref request changes one ref of one repository at most, none when refused,
      and enters the log either way. */
  lemma WritesAreIsolated(s: Store, op: Op)
    requires op.NewRef? || op.MoveRef?
    ensures var t := Step(s, op);
      && |t.writes| == |s.writes| + 1 && t.writes[..|s.writes|] == s.writes
      && var w := t.writes[|s.writes|];
      && w.repo == op.repo && w.ref == op.ref && w.sha == op.sha
      && (!w.Accepted() ==> t.refs == s.refs)
      && (w.Accepted() ==> RefIn(t, op.repo, op.ref) == Some(op.sha))
      && (forall repo, ref | repo != op.repo || ref != op.ref :: RefIn(t, repo, ref) == RefIn(s, repo, ref))
  {}

  // ---- what a ref may be pointed at ----

  /** Some request of the run named sha: it was pushed, or a ref, an ancestry or SetBranch said it. */
  ghost predicate EverNamed(ops: seq<Op>, sha: Sha) {
    if ops == [] then sha == "00000000000000000000000000000000000000ba"
    else
      var before, op := ops[..|ops| - 1], ops[|ops| - 1];
      || EverNamed(before, sha)
      || (op.CommitObject? && sha == ObjectName('c', Run(before).next + 1))
      || ((op.NewRef? || op.MoveRef? || op.SharedBranch?) && sha == op.sha)
      || (op.Ancestry? && (sha in op.ancestry.Keys || sha in op.ancestry.Values))
  }

  lemma PointableStep(s: Store, op: Op, sha: Sha)
    requires sha in Pointable(Step(s, op))
    ensures || sha in Pointable(s)
            || (op.CommitObject? && sha == ObjectName('c', s.next + 1))
            || ((op.NewRef? || op.MoveRef? || op.SharedBranch?) && sha == op.sha)
            || (op.Ancestry? && (sha in op.ancestry.Keys || sha in op.ancestry.Values))
  {
    hide ObjectName, CreateReply, UpdateReply, TreeOf;
    if op.Ancestry? && sha in Step(s, op).parents.Values {
      var c :| c in Step(s, op).parents && Step(s, op).parents[c] == sha;
      assert if c in op.ancestry then op.ancestry[c] == sha else c in s.parents && s.parents[c] == sha;
    }
  }

  lemma {:induction false} PointableWasNamed(ops: seq<Op>, sha: Sha)
    requires sha in Pointable(Run(ops))
    ensures EverNamed(ops, sha)
  {
    hide Pointable, Step;
    if ops == [] {
      assert sha == "00000000000000000000000000000000000000ba" by {
        NothingButTheBase(sha);
      }
    } else {
      var before, op := ops[..|ops| - 1], ops[|ops| - 1];
      PointableStep(Run(before), op, sha);
      if sha in Pointable(Run(before)) {
        PointableWasNamed(before, sha);
      }
    }
  }

  lemma NothingButTheBase(sha: Sha)
    requires sha in Pointable(EMPTY)
    ensures sha == "00000000000000000000000000000000000000ba"
  {}

  /** What no request of the run ever named is refused, whatever ref it is for and even if forced. */
  lemma NeverNamedIsRefused(ops: seq<Op>, repo: Repo, ref: Ref, sha: Sha, force: bool)
    requires !EverNamed(ops, sha)
    ensures var s := Run(ops); var t, u := Step(s, NewRef(repo, ref, sha)), Step(s, MoveRef(repo, ref, sha, force));
      && t.refs == u.refs == s.refs
      && t.writes == s.writes + [RefWrite(repo, Create, ref, sha, false, 422)]
      && u.writes == s.writes + [RefWrite(repo, Update, ref, sha, force, 422)]
  {
    var s := Run(ops);
    hide Run, Pointable, Step, EverNamed;
    if sha in Pointable(s) {
      PointableWasNamed(ops, sha);
    }
    WhatCreateRefDoes(s, repo, ref, sha);
    WhatUpdateRefDoes(s, repo, ref, sha, force);
  }

  /** A name something is known by: a ref that resolves nowhere is created at it, and one that does
      moves to it exactly when it goes forward or is forced. */
  ghost predicate Accepts(s: Store, repo: Repo, ref: Ref, name: Sha, force: bool) {
    var t, u := Step(s, NewRef(repo, ref, name)), Step(s, MoveRef(repo, ref, name, force));
    if !Resolves(s, repo, ref) then
      && t.writes == s.writes + [RefWrite(repo, Create, ref, name, false, 201)]
      && RefIn(t, repo, ref) == Some(name)
    else
      var forward := force || Leaves(s, repo, ref, name);
      && u.writes == s.writes + [RefWrite(repo, Update, ref, name, force, if forward then 200 else 422)]
      && (if forward then RefIn(u, repo, ref) == Some(name) else u.refs == s.refs)
  }

  lemma KnownIsAccepted(s: Store, repo: Repo, ref: Ref, name: Sha, force: bool)
    requires name in Pointable(s)
    ensures Accepts(s, repo, ref, name, force)
  {
    WhatCreateRefDoes(s, repo, ref, name);
    WhatUpdateRefDoes(s, repo, ref, name, force);
    hide Pointable, Step, Leaves;
  }

  lemma {:induction false} PushedIsPointable(ops: seq<Op>, rec: CommitRec, more: seq<Op>)
    ensures ObjectName('c', Run(ops).next + 1) in Pointable(Run(ops + [CommitObject(rec)] + more))
  {
    RunOneMore(ops, CommitObject(rec));
    PushedObjectsAreKept(ops + [CommitObject(rec)], more);
    hide Run, ObjectName;
    var name, s := ObjectName('c', Run(ops).next + 1), Run(ops + [CommitObject(rec)] + more);
    assert name in s.commits.Keys;
  }

  /** A commit pushed at any point of the run can be named from then on. */
  lemma {:induction false} PushedCommitsAreAccepted(
    ops: seq<Op>, rec: CommitRec, more: seq<Op>, repo: Repo, ref: Ref, force: bool)
    ensures Accepts(
              Run(ops + [CommitObject(rec)] + more), repo, ref, ObjectName('c', Run(ops).next + 1), force)
  {
    hide *;
    PushedIsPointable(ops, rec, more);
    KnownIsAccepted(
      Run(ops + [CommitObject(rec)] + more), repo, ref, ObjectName('c', Run(ops).next + 1), force);
  }

  // ---- branches only fast-forward ----

  /** No forced update, and no commit given another parent by SetParents. */
  ghost predicate Gentle(s: Store, op: Op) {
    && (op.MoveRef? ==> !op.force)
    && (op.Ancestry? ==> forall c | c in op.ancestry && c in s.parents :: op.ancestry[c] == s.parents[c])
  }

  ghost predicate GentleRun(ops: seq<Op>) {
    ops != [] ==>
      GentleRun(ops[..|ops| - 1]) && Gentle(Run(ops[..|ops| - 1]), ops[|ops| - 1])
  }

  /** Every head a repository's own branch had, in order. */
  function Heads(writes: seq<RefWrite>, repo: Repo, ref: Ref): seq<Sha> {
    if writes == [] then []
    else
      var w := writes[|writes| - 1];
      Heads(writes[..|writes| - 1], repo, ref)
      + if w.Accepted() && w.repo == repo && w.ref == ref then [w.sha] else []
  }

  lemma {:induction false} OwnIsLastHead(writes: seq<RefWrite>, repo: Repo, ref: Ref)
    ensures var heads := Heads(writes, repo, ref);
      Own(Replay(writes), repo, ref) == if heads == [] then None else Some(heads[|heads| - 1])
  {
    if writes != [] {
      OwnIsLastHead(writes[..|writes| - 1], repo, ref);
    }
  }

  /** Where SetBranch last pointed a shared ref. */
  function LastShared(ops: seq<Op>, ref: Ref): Option<Sha> {
    if ops == [] then None
    else
      var op := ops[|ops| - 1];
      if op.SharedBranch? && op.ref == ref then Some(op.sha) else LastShared(ops[..|ops| - 1], ref)
  }

  lemma StepSetsShared(s: Store, op: Op)
    ensures Step(s, op).shared == if op.SharedBranch? then s.shared[op.ref := op.sha] else s.shared
  {}

  lemma {:induction false} SharedIsLastSet(ops: seq<Op>, ref: Ref)
    ensures LastShared(ops, ref) == if ref in Run(ops).shared then Some(Run(ops).shared[ref]) else None
  {
    hide Step;
    if ops != [] {
      SharedIsLastSet(ops[..|ops| - 1], ref);
      StepSetsShared(Run(ops[..|ops| - 1]), ops[|ops| - 1]);
    }
  }

  /** A name is resolved to the last accepted write of that branch in that repository;
      without one, to what SetBranch last said; without that, to itself. */
  lemma {:induction false} ResolvesToTheLastWrite(ops: seq<Op>, repo: Repo, rev: string)
    ensures var heads, shared := Heads(Run(ops).writes, repo, "heads/" + rev), LastShared(ops, "heads/" + rev);
      Resolved(Run(ops), repo, rev)
      == if heads != [] then heads[|heads| - 1] else if shared.Some? then shared.value else rev
  {
    hide Run, Heads, LastShared, Replay;
    RefsAreReplayed(ops);
    OwnIsLastHead(Run(ops).writes, repo, "heads/" + rev);
    SharedIsLastSet(ops, "heads/" + rev);
  }

  ghost predicate AtOrBehind(s: Store, a: Sha, d: Sha) {
    a == d || Reaches(s, d, a)
  }

  ghost predicate HeadsInOrder(s: Store, heads: seq<Sha>) {
    forall i, j | 0 <= i <= j < |heads| :: AtOrBehind(s, heads[i], heads[j])
  }

  lemma {:induction false} GentleKeepsAncestry(s: Store, op: Op)
    requires Numbered(s) && Gentle(s, op)
    ensures KeepsAncestry(s, Step(s, op))
  {
    if op.CommitObject? {
      CommitKeepsAncestry(s, op.rec);
    }
  }

  /** Extending the heads of one branch by one accepted gentle write. */
  lemma HeadsExtend(s: Store, heads: seq<Sha>, sha: Sha)
    requires HeadsInOrder(s, heads)
    requires heads != [] ==> AtOrBehind(s, heads[|heads| - 1], sha)
    ensures HeadsInOrder(s, heads + [sha])
  {
    var longer := heads + [sha];
    forall i, j | 0 <= i <= j < |longer| ensures AtOrBehind(s, longer[i], longer[j]) {
      if j == |heads| && i < |heads| {
        var last := heads[|heads| - 1];
        assert AtOrBehind(s, heads[i], last);
        if heads[i] != last && last != sha {
          ReachesTransitive(s, sha, last, heads[i]);
        }
      } else if j < |heads| {
        assert AtOrBehind(s, heads[i], heads[j]);
      }
    }
  }

  lemma {:induction false} BranchesOnlyFastForward(ops: seq<Op>, repo: Repo, ref: Ref)
    requires GentleRun(ops)
    ensures HeadsInOrder(Run(ops), Heads(Run(ops).writes, repo, ref))
  {
    if ops != [] {
      var init, op := ops[..|ops| - 1], ops[|ops| - 1];
      BranchesOnlyFastForward(init, repo, ref);
      var s := Run(init);
      RunIsNumbered(init);
      RefsAreReplayed(init);
      OwnIsLastHead(s.writes, repo, ref);
      FastForwardStep(s, op, repo, ref);
    }
  }

  lemma {:induction false} FastForwardStep(s: Store, op: Op, repo: Repo, ref: Ref)
    requires Numbered(s) && Gentle(s, op)
    requires HeadsInOrder(s, Heads(s.writes, repo, ref))
    requires var heads := Heads(s.writes, repo, ref);
      Own(s.refs, repo, ref) == if heads == [] then None else Some(heads[|heads| - 1])
    ensures HeadsInOrder(Step(s, op), Heads(Step(s, op).writes, repo, ref))
  {
    var t := Step(s, op);
    var heads, after := Heads(s.writes, repo, ref), Heads(t.writes, repo, ref);
    GentleKeepsAncestry(s, op);
    if op.NewRef? || op.MoveRef? {
      assert t.writes[..|t.writes| - 1] == s.writes;
      if after != heads {
        HeadsExtend(s, heads, op.sha);
      }
    }
    forall i, j | 0 <= i <= j < |after| ensures AtOrBehind(t, after[i], after[j]) {
      assert AtOrBehind(s, after[i], after[j]);
      if after[i] != after[j] {
        ReachesKept(s, t, after[j], after[i]);
      }
    }
  }

  /** A repository's own branch only moves forward: every head it ever had is
      where it points now, or in the history of it. */
  lemma {:induction false} EveryHeadIsKept(ops: seq<Op>, repo: Repo, ref: Ref, head: Sha)
    requires GentleRun(ops) && head in Heads(Run(ops).writes, repo, ref)
    ensures Own(Run(ops).refs, repo, ref).Some?
    ensures AtOrBehind(Run(ops), head, Own(Run(ops).refs, repo, ref).value)
  {
    BranchesOnlyFastForward(ops, repo, ref);
    RefsAreReplayed(ops);
    OwnIsLastHead(Run(ops).writes, repo, ref);
  }
}
