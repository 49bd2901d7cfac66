/** The changeset an agent run reports: a NUL-separated name-status diff and the
    branch tree turned into file contents and deletions. */
module Changesets {
  import opened Text

  type Path = string
  type Bytes = string

  const NUL: char := '\0'

  /** A tree as git lists it recursively: blobs, symlinks and gitlinks by path. */
  datatype Entry = Entry(mode: string, content: Bytes)

  type Tree = map<Path, Entry>

  datatype DiffEntry = DiffEntry(status: string, path: Path)

  datatype FileChange = FileChange(path: Path, mode: string, content: Bytes)

  datatype Changeset = Changeset(baseSHA: string, commitMessage: string, upserts: seq<FileChange>, deletes: seq<Path>)

  datatype Error =
    | TooLarge(path: Path)
    | UnsupportedStatus(status: string, path: Path)
    | UnsupportedMode(mode: string, path: Path)
    | UnexpectedEntry(path: Path)
    | Empty

  datatype Result<+T> = Ok(value: T) | Err(error: Error)

  /** What a run has gathered so far. */
  datatype Gathered = Gathered(upserts: seq<FileChange>, deletes: seq<Path>, total: nat)

  predicate SupportedMode(mode: string) {
    mode == "100644" || mode == "100755" || mode == "120000"
  }

  predicate IsUpsert(status: string) {
    status == "A" || status == "M" || status == "T"
  }

  /** One changed file's mode and content on the branch. */
  function FileChangeOf(branch: Tree, path: Path): Result<FileChange> {
    if path !in branch then Err(UnexpectedEntry(path))
    else if !SupportedMode(branch[path].mode) then Err(UnsupportedMode(branch[path].mode, path))
    else Ok(FileChange(path, branch[path].mode, branch[path].content))
  }

  function Gather(g: Gathered, e: DiffEntry, branch: Tree, maxBytes: int): Result<Gathered> {
    if e.status == "D" then Ok(g.(deletes := g.deletes + [e.path]))
    else if IsUpsert(e.status) then
      match FileChangeOf(branch, e.path)
      case Err(error) => Err(error)
      case Ok(fc) =>
        var total := g.total + |fc.content|;
        if total > maxBytes then Err(TooLarge(e.path))
        else Ok(Gathered(g.upserts + [fc], g.deletes, total))
    else Err(UnsupportedStatus(e.status, e.path))
  }

  function GatherAll(entries: seq<DiffEntry>, branch: Tree, maxBytes: int): Result<Gathered> {
    if entries == [] then Ok(Gathered([], [], 0))
    else
      match GatherAll(entries[..|entries| - 1], branch, maxBytes)
      case Err(error) => Err(error)
      case Ok(g) => Gather(g, entries[|entries| - 1], branch, maxBytes)
  }

  function Built(
    entries: seq<DiffEntry>, branch: Tree, baseSHA: string, message: string, maxBytes: int): Result<Changeset>
  {
    match GatherAll(entries, branch, maxBytes)
    case Err(error) => Err(error)
    case Ok(g) =>
      if g.upserts == [] && g.deletes == [] then Err(Empty)
      else Ok(Changeset(baseSHA, message, g.upserts, g.deletes))
  }

  /** The fields of the diff taken two by two; an odd one out is dropped. */
  function Pairs(fields: seq<string>): (entries: seq<DiffEntry>)
    ensures |entries| == |fields| / 2
    ensures forall k | 0 <= k < |entries| :: entries[k] == DiffEntry(fields[2 * k], fields[2 * k + 1])
  {
    if |fields| < 2 then [] else [DiffEntry(fields[0], fields[1])] + Pairs(fields[2..])
  }

  function Fields(diff: string): seq<string> {
    Split(TrimSuffix(diff, [NUL]), NUL)
  }

  lemma {:induction false} ErrorsStick(entries: seq<DiffEntry>, k: nat, branch: Tree, maxBytes: int)
    requires k <= |entries| && GatherAll(entries[..k], branch, maxBytes).Err?
    ensures GatherAll(entries, branch, maxBytes) == GatherAll(entries[..k], branch, maxBytes)
  {
    if k == |entries| {
      assert entries[..k] == entries;
    } else {
      assert entries[..|entries| - 1][..k] == entries[..k];
      ErrorsStick(entries[..|entries| - 1], k, branch, maxBytes);
    }
  }

  lemma EmptyGathered(entries: seq<DiffEntry>, branch: Tree, maxBytes: int)
    ensures GatherAll(entries[..0], branch, maxBytes) == Ok(Gathered([], [], 0))
  {}

  lemma GatherUpTo(entries: seq<DiffEntry>, k: nat, g: Gathered, branch: Tree, maxBytes: int)
    requires k < |entries| && GatherAll(entries[..k], branch, maxBytes) == Ok(g)
    ensures GatherAll(entries[..k + 1], branch, maxBytes) == Gather(g, entries[k], branch, maxBytes)
    ensures Gather(g, entries[k], branch, maxBytes).Err? ==>
              GatherAll(entries, branch, maxBytes) == Gather(g, entries[k], branch, maxBytes)
  {
    hide Gather;
    assert entries[..k + 1][..k] == entries[..k];
    if Gather(g, entries[k], branch, maxBytes).Err? {
      ErrorsStick(entries, k + 1, branch, maxBytes);
    }
  }

  method BuildChangeset(diff: string, branch: Tree, baseSHA: string, message: string, maxBytes: int)
    returns (r: Result<Changeset>)
    ensures r == Built(Pairs(Fields(diff)), branch, baseSHA, message, maxBytes)
  {
    hide Fields, Pairs, FileChangeOf, GatherAll, IsUpsert;
    var upserts: seq<FileChange> := [];
    var deletes: seq<Path> := [];
    var total: nat := 0;
    var fields := Fields(diff);
    ghost var entries := Pairs(fields);
    EmptyGathered(entries, branch, maxBytes);
    var i := 0;
    while i + 1 < |fields|
      invariant 0 <= i <= |fields| && i % 2 == 0
      invariant GatherAll(entries[..i / 2], branch, maxBytes) == Ok(Gathered(upserts, deletes, total))
      decreases |fields| - i
    {
      var status, path := fields[i], fields[i + 1];
      ghost var k := i / 2;
      assert entries[k] == DiffEntry(status, path);
      GatherUpTo(entries, k, Gathered(upserts, deletes, total), branch, maxBytes);
      if status == "D" {
        deletes := deletes + [path];
      } else if IsUpsert(status) {
        var change := FileChangeOf(branch, path);
        if change.Err? {
          return Err(change.error);
        }
        total := total + |change.value.content|;
        if total > maxBytes {
          return Err(TooLarge(path));
        }
        upserts := upserts + [change.value];
      } else {
        return Err(UnsupportedStatus(status, path));
      }
      i := i + 2;
    }
    assert entries[..i / 2] == entries;
    if |upserts| == 0 && |deletes| == 0 {
      return Err(Empty);
    }
    r := Ok(Changeset(baseSHA, message, upserts, deletes));
  }

  // ---- the wire form ----

  /** git diff --name-status -z: every status and every path ends in a NUL. */
  function Encode(entries: seq<DiffEntry>): string {
    if entries == [] then ""
    else entries[0].status + [NUL] + entries[0].path + [NUL] + Encode(entries[1..])
  }

  function Flat(entries: seq<DiffEntry>): seq<string> {
    if entries == [] then [] else [entries[0].status, entries[0].path] + Flat(entries[1..])
  }

  predicate NulFree(entries: seq<DiffEntry>) {
    forall e | e in entries :: NUL !in e.status && NUL !in e.path
  }

  lemma {:induction false} EncodeIsJoin(entries: seq<DiffEntry>)
    requires entries != []
    ensures |Flat(entries)| >= 2 && Encode(entries) == Join(Flat(entries), NUL) + [NUL]
  {
    var e, rest := entries[0], entries[1..];
    var flat := Flat(entries);
    assert flat[1..] == [e.path] + Flat(rest) && flat[1..][1..] == Flat(rest);
    if rest == [] {
      assert Join(flat[1..], NUL) == e.path;
    } else {
      EncodeIsJoin(rest);
    }
  }

  lemma {:induction false} PairsOfFlat(entries: seq<DiffEntry>)
    requires NulFree(entries)
    ensures Pairs(Flat(entries)) == entries
    ensures forall f | f in Flat(entries) :: NUL !in f
  {
    if entries != [] {
      assert entries[0] in entries && forall e | e in entries[1..] :: e in entries;
      PairsOfFlat(entries[1..]);
      assert Flat(entries)[2..] == Flat(entries[1..]);
    }
  }

  /** Splitting inverts the wire form, an empty diff included. */
  lemma DecodeEncode(entries: seq<DiffEntry>)
    requires NulFree(entries)
    ensures Pairs(Fields(Encode(entries))) == entries
  {
    PairsOfFlat(entries);
    if entries != [] {
      EncodeIsJoin(entries);
      var joined := Join(Flat(entries), NUL);
      assert HasSuffix(joined + [NUL], [NUL]);
      assert TrimSuffix(joined + [NUL], [NUL]) == joined;
      SplitJoin(Flat(entries), NUL);
    }
  }

  // ---- what a changeset does to the base tree ----

  function At(tree: Tree, p: Path): Option<Entry> {
    if p in tree then Some(tree[p]) else None
  }

  function Deleted(tree: Tree, deletes: seq<Path>): Tree {
    tree - set p | p in deletes
  }

  function Upserted(tree: Tree, upserts: seq<FileChange>): Tree {
    if upserts == [] then tree
    else
      var u := upserts[|upserts| - 1];
      Upserted(tree, upserts[..|upserts| - 1])[u.path := Entry(u.mode, u.content)]
  }

  function Applied(base: Tree, cs: Changeset): Tree {
    Upserted(Deleted(base, cs.deletes), cs.upserts)
  }

  /** What git lists for the two trees: each changed path once, with its status, in some order. */
  ghost predicate IsDiff(entries: seq<DiffEntry>, base: Tree, branch: Tree) {
    && NulFree(entries)
    && (forall i, j | 0 <= i < j < |entries| :: entries[i].path != entries[j].path)
    && (forall p :: Changed(entries, p) <==> At(base, p) != At(branch, p))
    && (forall e | e in entries :: StatusOf(e, base, branch))
  }

  ghost predicate Changed(entries: seq<DiffEntry>, p: Path) {
    exists e :: e in entries && e.path == p
  }

  predicate StatusOf(e: DiffEntry, base: Tree, branch: Tree) {
    if e.path !in branch then e.status == "D"
    else if e.path !in base then e.status == "A"
    else e.status == "M" || e.status == "T"
  }

  function UpsertPaths(entries: seq<DiffEntry>): seq<Path> {
    if entries == [] then []
    else
      var e := entries[|entries| - 1];
      UpsertPaths(entries[..|entries| - 1]) + if IsUpsert(e.status) then [e.path] else []
  }

  function DeletePaths(entries: seq<DiffEntry>): seq<Path> {
    if entries == [] then []
    else
      var e := entries[|entries| - 1];
      DeletePaths(entries[..|entries| - 1]) + if e.status == "D" then [e.path] else []
  }

  function PathsOf(upserts: seq<FileChange>): (paths: seq<Path>)
    ensures |paths| == |upserts| && forall i | 0 <= i < |paths| :: paths[i] == upserts[i].path
  {
    if upserts == [] then [] else PathsOf(upserts[..|upserts| - 1]) + [upserts[|upserts| - 1].path]
  }

  function RawBytes(upserts: seq<FileChange>): nat {
    if upserts == [] then 0 else RawBytes(upserts[..|upserts| - 1]) + |upserts[|upserts| - 1].content|
  }

  ghost predicate FromBranch(upserts: seq<FileChange>, branch: Tree) {
    forall u | u in upserts :: At(branch, u.path) == Some(Entry(u.mode, u.content)) && SupportedMode(u.mode)
  }

  /** Every entry is used once, in order, with the branch's content, inside the cap. */
  ghost predicate UsesEveryEntry(g: Gathered, entries: seq<DiffEntry>, branch: Tree, maxBytes: int) {
    && PathsOf(g.upserts) == UpsertPaths(entries) && g.deletes == DeletePaths(entries)
    && FromBranch(g.upserts, branch)
    && g.total == RawBytes(g.upserts) && (g.upserts != [] ==> g.total <= maxBytes)
  }

  lemma GatherUsesOneMore(g: Gathered, entries: seq<DiffEntry>, e: DiffEntry, branch: Tree, maxBytes: int)
    requires UsesEveryEntry(g, entries, branch, maxBytes) && Gather(g, e, branch, maxBytes).Ok?
    ensures UsesEveryEntry(Gather(g, e, branch, maxBytes).value, entries + [e], branch, maxBytes)
  {
    hide SupportedMode, IsUpsert, UpsertPaths, DeletePaths, PathsOf, RawBytes, FromBranch;
    PathsSnoc(entries, e);
    UpsertIsNotDelete(e.status);
    if e.status != "D" {
      UpsertsSnoc(g.upserts, FileChangeOf(branch, e.path).value, branch);
    }
  }

  lemma PathsSnoc(entries: seq<DiffEntry>, e: DiffEntry)
    ensures UpsertPaths(entries + [e]) == UpsertPaths(entries) + if IsUpsert(e.status) then [e.path] else []
    ensures DeletePaths(entries + [e]) == DeletePaths(entries) + if e.status == "D" then [e.path] else []
  {
    hide IsUpsert;
    Snoc(entries, e);
  }

  lemma UpsertsSnoc(upserts: seq<FileChange>, fc: FileChange, branch: Tree)
    ensures PathsOf(upserts + [fc]) == PathsOf(upserts) + [fc.path]
    ensures RawBytes(upserts + [fc]) == RawBytes(upserts) + |fc.content|
    ensures FromBranch(upserts, branch)
            && At(branch, fc.path) == Some(Entry(fc.mode, fc.content)) && SupportedMode(fc.mode)
            ==> FromBranch(upserts + [fc], branch)
  {
    hide SupportedMode;
    Snoc(upserts, fc);
  }

  lemma UpsertIsNotDelete(status: string)
    ensures IsUpsert(status) ==> status != "D"
  {}

  lemma {:induction false} GatherUsesEveryEntry(entries: seq<DiffEntry>, branch: Tree, maxBytes: int)
    requires GatherAll(entries, branch, maxBytes).Ok?
    ensures UsesEveryEntry(GatherAll(entries, branch, maxBytes).value, entries, branch, maxBytes)
  {
    if entries != [] {
      hide Gather, UsesEveryEntry;
      var n := |entries| - 1;
      GatherUsesEveryEntry(entries[..n], branch, maxBytes);
      assert entries == entries[..n] + [entries[n]];
      GatherUsesOneMore(GatherAll(entries[..n], branch, maxBytes).value, entries[..n], entries[n], branch, maxBytes);
    }
  }

  lemma {:induction false} PathsByStatus(entries: seq<DiffEntry>, p: Path)
    ensures p in UpsertPaths(entries) <==> exists e :: e in entries && e.path == p && IsUpsert(e.status)
    ensures p in DeletePaths(entries) <==> exists e :: e in entries && e.path == p && e.status == "D"
  {
    if entries != [] {
      var n := |entries| - 1;
      PathsByStatus(entries[..n], p);
      assert entries == entries[..n] + [entries[n]];
    }
  }

  lemma {:induction false} UpsertedAt(tree: Tree, upserts: seq<FileChange>, branch: Tree, p: Path)
    requires FromBranch(upserts, branch)
    ensures At(Upserted(tree, upserts), p) == if p in PathsOf(upserts) then At(branch, p) else At(tree, p)
  {
    if upserts != [] {
      var n := |upserts| - 1;
      assert upserts[n] in upserts && upserts == upserts[..n] + [upserts[n]];
      UpsertedAt(tree, upserts[..n], branch, p);
    }
  }

  /** A successful changeset turns the base tree into exactly the branch tree. */
  lemma ChangesetReproducesBranch(
    entries: seq<DiffEntry>, base: Tree, branch: Tree, baseSHA: string, message: string, maxBytes: int, cs: Changeset)
    requires IsDiff(entries, base, branch)
    requires Built(Pairs(Fields(Encode(entries))), branch, baseSHA, message, maxBytes) == Ok(cs)
    ensures Applied(base, cs) == branch
    ensures PathsOf(cs.upserts) == UpsertPaths(entries) && cs.deletes == DeletePaths(entries)
    ensures forall p :: !(p in PathsOf(cs.upserts) && p in cs.deletes)
    ensures cs.upserts != [] ==> RawBytes(cs.upserts) <= maxBytes
    ensures cs.baseSHA == baseSHA && cs.commitMessage == message
  {
    DecodeEncode(entries);
    GatherUsesEveryEntry(entries, branch, maxBytes);
    var result := Applied(base, cs);
    forall p
      ensures At(result, p) == At(branch, p)
      ensures !(p in PathsOf(cs.upserts) && p in cs.deletes)
    {
      ChangedPath(entries, base, branch, p);
      UpsertedAt(Deleted(base, cs.deletes), cs.upserts, branch, p);
    }
    SameTree(result, branch);
  }

  lemma SameTree(a: Tree, b: Tree)
    requires forall p :: At(a, p) == At(b, p)
    ensures a == b
  {
    assert forall p :: (p in a <==> At(a, p).Some?) && (p in b <==> At(b, p).Some?);
    assert forall p | p in a :: a[p] == At(a, p).value == At(b, p).value == b[p];
  }

  /** A changed path is upserted when the branch has it, deleted when it has not, and no other path is touched. */
  lemma ChangedPath(entries: seq<DiffEntry>, base: Tree, branch: Tree, p: Path)
    requires IsDiff(entries, base, branch)
    ensures p in UpsertPaths(entries) <==> At(base, p) != At(branch, p) && p in branch
    ensures p in DeletePaths(entries) <==> At(base, p) != At(branch, p) && p !in branch
  {
    PathsByStatus(entries, p);
    assert Changed(entries, p) <==> At(base, p) != At(branch, p);
    if Changed(entries, p) {
      var e :| e in entries && e.path == p;
      assert StatusOf(e, base, branch);
      forall f | f in entries && f.path == p ensures f == e {
        var i :| 0 <= i < |entries| && entries[i] == e;
        var j :| 0 <= j < |entries| && entries[j] == f;
        assert i == j;
      }
    }
  }

  // ---- when there is one ----

  function ChangedBytes(entries: seq<DiffEntry>, branch: Tree): nat {
    if entries == [] then 0
    else
      var e := entries[|entries| - 1];
      ChangedBytes(entries[..|entries| - 1], branch)
      + if IsUpsert(e.status) && e.path in branch then |branch[e.path].content| else 0
  }

  predicate PushableEntry(e: DiffEntry, branch: Tree) {
    e.status == "D" || (IsUpsert(e.status) && e.path in branch && SupportedMode(branch[e.path].mode))
  }

  predicate Pushable(entries: seq<DiffEntry>, branch: Tree) {
    forall e | e in entries :: PushableEntry(e, branch)
  }

  ghost predicate InsideCap(entries: seq<DiffEntry>, branch: Tree, maxBytes: int) {
    UpsertPaths(entries) != [] ==> ChangedBytes(entries, branch) <= maxBytes
  }

  lemma GatherSucceedsOnce(g: Gathered, entries: seq<DiffEntry>, e: DiffEntry, branch: Tree, maxBytes: int)
    requires g.total == ChangedBytes(entries, branch) && InsideCap(entries, branch, maxBytes)
    ensures var after := Gather(g, e, branch, maxBytes);
      && (after.Ok? <==> PushableEntry(e, branch) && InsideCap(entries + [e], branch, maxBytes))
      && (after.Ok? ==> after.value.total == ChangedBytes(entries + [e], branch))
  {
    hide SupportedMode, IsUpsert;
    assert (entries + [e])[..|entries|] == entries;
    UpsertIsNotDelete(e.status);
  }

  lemma InsideCapEarlier(entries: seq<DiffEntry>, e: DiffEntry, branch: Tree, maxBytes: int)
    requires InsideCap(entries + [e], branch, maxBytes)
    ensures InsideCap(entries, branch, maxBytes)
  {}

  lemma {:induction false} GatherSucceeds(entries: seq<DiffEntry>, branch: Tree, maxBytes: int)
    ensures var all := GatherAll(entries, branch, maxBytes);
      && (all.Ok? <==> Pushable(entries, branch) && InsideCap(entries, branch, maxBytes))
      && (all.Ok? ==> all.value.total == ChangedBytes(entries, branch))
  {
    if entries != [] {
      hide Gather, PushableEntry, InsideCap;
      var n := |entries| - 1;
      var init, e := entries[..n], entries[n];
      assert entries == init + [e];
      GatherSucceeds(init, branch, maxBytes);
      assert Pushable(entries, branch) <==> Pushable(init, branch) && PushableEntry(e, branch);
      if InsideCap(entries, branch, maxBytes) {
        InsideCapEarlier(init, e, branch, maxBytes);
      }
      if GatherAll(init, branch, maxBytes).Ok? {
        GatherSucceedsOnce(GatherAll(init, branch, maxBytes).value, init, e, branch, maxBytes);
      }
    }
  }

  /** A file of the branch that the base has not, or has otherwise. */
  predicate ChangedFile(base: Tree, branch: Tree, p: Path) {
    p in branch && At(base, p) != At(branch, p)
  }

  /** The modes a push can express: a file, an executable one, a symbolic link. */
  predicate PushableMode(mode: string) {
    mode in {"100644", "100755", "120000"}
  }

  lemma PushableIsSupported()
    ensures forall mode :: PushableMode(mode) <==> SupportedMode(mode)
  {}

  lemma UpsertsAreChangedFiles(entries: seq<DiffEntry>, base: Tree, branch: Tree)
    requires IsDiff(entries, base, branch)
    ensures UpsertPaths(entries) != [] <==> exists p :: ChangedFile(base, branch, p)
  {
    hide IsDiff, UpsertPaths, DeletePaths;
    forall p ensures p in UpsertPaths(entries) <==> ChangedFile(base, branch, p) {
      ChangedPath(entries, base, branch, p);
    }
    assert UpsertPaths(entries) != [] ==> UpsertPaths(entries)[0] in UpsertPaths(entries);
  }

  /** A changeset comes back exactly when the trees differ, every changed file of the branch has
      a mode the push can express, and their sizes, if there are any, sum up within the cap. */
  lemma WhenThereIsAChangeset(
    entries: seq<DiffEntry>, base: Tree, branch: Tree, baseSHA: string, message: string, maxBytes: int)
    requires IsDiff(entries, base, branch)
    ensures Built(Pairs(Fields(Encode(entries))), branch, baseSHA, message, maxBytes).Ok? <==>
            && base != branch
            && (forall p | ChangedFile(base, branch, p) :: PushableMode(branch[p].mode))
            && ((exists p :: ChangedFile(base, branch, p)) ==> ChangedBytes(entries, branch) <= maxBytes)
    ensures base == branch ==> Built(Pairs(Fields(Encode(entries))), branch, baseSHA, message, maxBytes) == Err(Empty)
  {
    DecodeEncode(entries);
    PushableIsSupported();
    hide Encode, Fields, Pairs, SupportedMode, PushableMode, GatherAll, IsDiff, IsUpsert;
    GatherSucceeds(entries, branch, maxBytes);
    UpsertsAreChangedFiles(entries, base, branch);
    PushableModes(entries, base, branch);
    EmptyWhenSame(entries, base, branch, maxBytes);
  }

  /** What is wrong with entry k, if anything, when nothing is with those before it. */
  function FaultAt(entries: seq<DiffEntry>, k: nat, branch: Tree, maxBytes: int): Option<Error>
    requires k < |entries|
  {
    var e := entries[k];
    if e.status == "D" then None
    else if e.status !in {"A", "M", "T"} then Some(UnsupportedStatus(e.status, e.path))
    else if e.path !in branch then Some(UnexpectedEntry(e.path))
    else if !PushableMode(branch[e.path].mode) then
      Some(UnsupportedMode(branch[e.path].mode, e.path))
    else if ChangedBytes(entries[..k + 1], branch) > maxBytes then Some(TooLarge(e.path))
    else None
  }

  lemma FaultStops(entries: seq<DiffEntry>, k: nat, branch: Tree, maxBytes: int)
    requires k < |entries|
    requires var before := GatherAll(entries[..k], branch, maxBytes);
      before.Ok? && before.value.total == ChangedBytes(entries[..k], branch)
    ensures var after := GatherAll(entries[..k + 1], branch, maxBytes);
      match FaultAt(entries, k, branch, maxBytes)
      case Some(error) => after == Err(error)
      case None => after.Ok? && after.value.total == ChangedBytes(entries[..k + 1], branch)
  {
    assert entries[..k + 1][..k] == entries[..k];
  }

  lemma {:induction false} GathersUntilFault(entries: seq<DiffEntry>, k: nat, branch: Tree, maxBytes: int)
    requires k <= |entries| && forall j | 0 <= j < k :: FaultAt(entries, j, branch, maxBytes) == None
    ensures var g := GatherAll(entries[..k], branch, maxBytes);
      g.Ok? && g.value.total == ChangedBytes(entries[..k], branch)
  {
    hide FaultAt;
    if k > 0 {
      GathersUntilFault(entries, k - 1, branch, maxBytes);
      FaultStops(entries, k - 1, branch, maxBytes);
    }
  }

  /** Which error a diff is answered with, whatever its statuses: the first entry's that has one;
      and an empty changeset when no entry has one and there is none. */
  lemma WhichError(
    entries: seq<DiffEntry>, k: nat, branch: Tree, baseSHA: string, message: string, maxBytes: int)
    requires k <= |entries| && forall j | 0 <= j < k :: FaultAt(entries, j, branch, maxBytes) == None
    ensures k < |entries| && FaultAt(entries, k, branch, maxBytes).Some? ==>
      Built(entries, branch, baseSHA, message, maxBytes) == Err(FaultAt(entries, k, branch, maxBytes).value)
    ensures k == |entries| ==>
      var r := Built(entries, branch, baseSHA, message, maxBytes);
      if entries == [] then r == Err(Empty) else r.Ok?
  {
    hide FaultAt, Gather;
    GathersUntilFault(entries, k, branch, maxBytes);
    if k < |entries| {
      FaultStops(entries, k, branch, maxBytes);
      if FaultAt(entries, k, branch, maxBytes).Some? {
        ErrorsStick(entries, k + 1, branch, maxBytes);
      }
    } else {
      assert entries[..k] == entries;
      GatherUsesEveryEntry(entries, branch, maxBytes);
      EveryEntryLeavesSomething(entries, branch, maxBytes);
    }
  }

  lemma EveryEntryLeavesSomething(entries: seq<DiffEntry>, branch: Tree, maxBytes: int)
    requires GatherAll(entries, branch, maxBytes).Ok?
    ensures var g := GatherAll(entries, branch, maxBytes).value;
      g.upserts == [] && g.deletes == [] <==> entries == []
  {}

  lemma EmptyWhenSame(entries: seq<DiffEntry>, base: Tree, branch: Tree, maxBytes: int)
    requires IsDiff(entries, base, branch)
    ensures base == branch ==> GatherAll(entries, branch, maxBytes) == Ok(Gathered([], [], 0))
    ensures GatherAll(entries, branch, maxBytes).Ok? ==>
              var g := GatherAll(entries, branch, maxBytes).value;
              (g.upserts == [] && g.deletes == [] <==> base == branch)
  {
    hide Gather;
    if base == branch {
      NothingChanged(entries, base);
    } else if GatherAll(entries, branch, maxBytes).Ok? {
      GatherUsesEveryEntry(entries, branch, maxBytes);
      if forall p :: At(base, p) == At(branch, p) {
        SameTree(base, branch);
      }
      var p :| At(base, p) != At(branch, p);
      ChangedPath(entries, base, branch, p);
    }
  }

  lemma NothingChanged(entries: seq<DiffEntry>, base: Tree)
    requires IsDiff(entries, base, base)
    ensures entries == []
  {
    if entries != [] {
      assert entries[0] in entries;
      assert Changed(entries, entries[0].path);
    }
  }

  lemma PushableModes(entries: seq<DiffEntry>, base: Tree, branch: Tree)
    requires IsDiff(entries, base, branch)
    ensures Pushable(entries, branch) <==>
            forall p | ChangedFile(base, branch, p) :: SupportedMode(branch[p].mode)
  {}
}
