/** The preview derivation: a Project and an Intent give the list of components
    one preview host serves, or nothing at all. */
module PreviewComponents {
  import opened Text
  import opened IntentPhases
  import Routing = PreviewRouting

  datatype ProjectPreview = ProjectPreview(imageRepository: string, port: int, readinessPath: string)

  datatype ProjectRepositoryPreview = ProjectRepositoryPreview(contract: ProjectPreview, path: string)

  datatype ProjectRepository = ProjectRepository(name: string, url: string, preview: Option<ProjectRepositoryPreview>)

  datatype Project = Project(repositories: seq<ProjectRepository>, preview: Option<ProjectPreview>)

  datatype RepositoryPreview = RepositoryPreview(name: string, url: string, preview: ProjectPreview, path: string)

  datatype PreviewComponent = PreviewComponent(
    name: string, imageRepository: string, revision: string, port: int, readinessPath: string, path: string)

  const MAX_PREVIEW_COMPONENTS: nat := 4
  const MAX_PREVIEW_PATH_LENGTH: nat := 128
  const MAX_READINESS_PATH_LENGTH: nat := 128
  const MAX_REPOSITORIES: nat := 8
  const MAX_REPOSITORY_NAME_LENGTH: nat := 16
  const MAX_URL_LENGTH: nat := 256
  const MAX_IMAGE_LENGTH: nat := 255

  // ---- repository URLs ----

  /** unicode.IsSpace. */
  predicate IsSpace(c: char) {
    || PatternSpace(c) || c == '\U{0B}' || c == '\U{85}' || c == '\U{A0}'
    || c == '\U{1680}' || '\U{2000}' <= c <= '\U{200A}'
    || c == '\U{2028}' || c == '\U{2029}' || c == '\U{202F}' || c == '\U{205F}' || c == '\U{3000}'
  }

  /** The spaces a schema pattern's \s stands for. */
  predicate PatternSpace(c: char) {
    c == '\t' || c == '\n' || c == '\U{0C}' || c == '\r' || c == ' '
  }

  function TrimSpace(s: string): string {
    if s == "" then s
    else if IsSpace(s[0]) then TrimSpace(s[1..])
    else if IsSpace(s[|s| - 1]) then TrimSpace(s[..|s| - 1])
    else s
  }

  lemma {:induction false} TrimSpaceDrops(s: string)
    requires s != "" && !IsSpace(s[0])
    ensures var t := TrimSpace(s);
      && t != "" && t <= s && !IsSpace(t[|t| - 1]) && forall i | |t| <= i < |s| :: IsSpace(s[i])
    decreases |s|
  {
    hide IsSpace;
    if IsSpace(s[|s| - 1]) {
      TrimSpaceDrops(s[..|s| - 1]);
    }
  }

  /** lowerAscii, for one character. */
  function LowerChar(c: char): char {
    if 'A' <= c <= 'Z' then 'a' + (c - 'A') else c
  }

  /** What is used of unicode.ToLower: on ASCII it is LowerChar, what it gives is lower case
      already, and spaces and what a URL is punctuated with neither change nor come about. */
  ghost predicate LowerCase(lower: char -> char) {
    && (forall c: char | c < '\U{80}' :: lower(c) == LowerChar(c))
    && (forall c: char :: lower(lower(c)) == lower(c))
    && (forall c: char | IsSpace(c) || IsSpace(lower(c)) || lower(c) in PUNCTUATION :: lower(c) == c)
  }

  const PUNCTUATION: set<char> := {'/', '@', '?', '#'}

  lemma LowerCharIsLowerCase()
    ensures LowerCase(LowerChar)
    ensures LowerChar('A') == 'a' && LowerChar('Z') == 'z'
    ensures forall c: char :: LowerChar(c) == c || ('A' <= c <= 'Z' && LowerChar(c) as int == c as int + 32)
    ensures forall c: char | 'A' <= c <= 'Z' :: LowerChar(c) != c
  {}

  function Mapped(lower: char -> char, s: string): (r: string)
    ensures |r| == |s|
  {
    seq(|s|, i requires 0 <= i < |s| => lower(s[i]))
  }

  function Bare(u: string): string {
    TrimRight(TrimSpace(u), '/')
  }

  function NormalizedBy(lower: char -> char, u: string): string {
    TrimSuffix(Mapped(lower, Bare(u)), ".git")
  }

  predicate SameBy(lower: char -> char, a: string, b: string) {
    NormalizedBy(lower, a) == NormalizedBy(lower, b)
  }

  /** The key the Project schema's CEL rule compares: the suffix is tested before lower-casing. */
  function SchemaKey(u: string): string {
    Mapped(LowerChar, TrimSuffix(u, ".git"))
  }

  /** [^/\s?#]+ */
  predicate PathPart(s: string) {
    s != "" && forall i | 0 <= i < |s| :: !PatternSpace(s[i]) && s[i] != '/' && s[i] != '?' && s[i] != '#'
  }

  /** [^/\s@?#]+ */
  predicate HostPart(s: string) {
    PathPart(s) && forall i | 0 <= i < |s| :: s[i] != '@'
  }

  function UpToName(host: string, owner: string): string {
    "https://" + host + "/" + owner + "/"
  }

  ghost predicate URLParts(u: string, host: string, owner: string, name: string) {
    HostPart(host) && PathPart(owner) && PathPart(name) && u == UpToName(host, owner) + name
  }

  /** The schema's URL pattern: ^https://[^/\s@?#]+/[^/\s?#]+/[^/\s?#]+$ */
  ghost predicate AdmittedURL(u: string) {
    exists host, owner, name :: URLParts(u, host, owner, name)
  }

  lemma AdmittedEnds(u: string)
    requires AdmittedURL(u)
    ensures "https://" <= u && u[|u| - 1] != '/' && !PatternSpace(u[|u| - 1])
  {
    var host, owner, name :| URLParts(u, host, owner, name);
    assert u[|u| - 1] == name[|name| - 1];
  }

  ghost predicate MixedCaseGit(lower: char -> char, u: string) {
    HasSuffix(Mapped(lower, u), ".git") && !HasSuffix(u, ".git")
  }

  ghost predicate ChangesBeyondASCII(lower: char -> char, u: string) {
    exists i :: 0 <= i < |u| && lower(u[i]) != LowerChar(u[i])
  }

  /** What a caller can test of a URL: it ends in a space or in a ".git" of another case, or it
      has a letter outside ASCII to lower. */
  ghost predicate OddlySpelled(lower: char -> char, u: string) {
    || (u != "" && IsSpace(u[|u| - 1]))
    || MixedCaseGit(lower, u)
    || ChangesBeyondASCII(lower, u)
  }

  /** The name is nothing but spaces. */
  predicate BlankName(u: string) {
    var t := TrimSpace(u);
    t != "" && t[|t| - 1] == '/'
  }

  /** Only spaces and slashes at the end are dropped, none when the URL ends in neither. */
  lemma BareDrops(u: string)
    requires "https://" <= u
    ensures Bare(u) <= u && forall i | |Bare(u)| <= i < |u| :: IsSpace(u[i]) || u[i] == '/'
    ensures u[|u| - 1] != '/' ==> (Bare(u) == u <==> !IsSpace(u[|u| - 1]))
  {
    assert u[0] == "https://"[0] && !IsSpace(u[0]);
    hide IsSpace;
    TrimSpaceDrops(u);
    TrimRightDrops(TrimSpace(u), '/');
  }

  lemma SuffixTrimmed(x: string, suffix: string)
    ensures HasSuffix(x + suffix, suffix) && TrimSuffix(x + suffix, suffix) == x
  {
    assert (x + suffix)[|x|..] == suffix && (x + suffix)[..|x|] == x;
  }

  lemma MappedGit(lower: char -> char, x: string)
    requires LowerCase(lower)
    ensures Mapped(lower, x + ".git") == Mapped(lower, x) + ".git"
    ensures !IsSpace((x + ".git")[|x| + 3]) && (x + ".git")[|x| + 3] == 't'
    ensures ChangesBeyondASCII(lower, x + ".git") <==> ChangesBeyondASCII(lower, x)
  {
    var u := x + ".git";
    assert forall i | 0 <= i < 4 :: u[|x| + i] == ".git"[i] && lower(".git"[i]) == LowerChar(".git"[i]) == ".git"[i];
    if ChangesBeyondASCII(lower, u) {
      var i :| 0 <= i < |u| && lower(u[i]) != LowerChar(u[i]);
      assert i < |x| && x[i] == u[i];
    }
    if ChangesBeyondASCII(lower, x) {
      var i :| 0 <= i < |x| && lower(x[i]) != LowerChar(x[i]);
      assert u[i] == x[i];
    }
  }

  lemma MappedSuffix(lower: char -> char, u: string)
    requires LowerCase(lower) && HasSuffix(u, ".git")
    ensures u[|u| - 1] == 't' && !IsSpace(u[|u| - 1])
    ensures HasSuffix(Mapped(lower, u), ".git")
    ensures TrimSuffix(Mapped(lower, u), ".git") == Mapped(lower, TrimSuffix(u, ".git"))
    ensures ChangesBeyondASCII(lower, u) <==> ChangesBeyondASCII(lower, TrimSuffix(u, ".git"))
  {
    hide LowerCase, IsSpace, ChangesBeyondASCII, Mapped;
    var init := TrimSuffix(u, ".git");
    assert u == init + ".git";
    MappedGit(lower, init);
    SuffixTrimmed(Mapped(lower, init), ".git");
  }

  /** A URL with ".git" put after it is plainly spelled if its letters beyond ASCII are lowered. */
  lemma GitAdded(lower: char -> char, x: string)
    requires LowerCase(lower) && AdmittedURL(x + ".git") && !ChangesBeyondASCII(lower, x)
    ensures !OddlySpelled(lower, x + ".git")
    ensures NormalizedBy(lower, x + ".git") == SchemaKey(x + ".git") == Mapped(LowerChar, x)
  {
    hide LowerCase, IsSpace, ChangesBeyondASCII, Mapped, NormalizedBy, AdmittedURL;
    var v := x + ".git";
    MappedGit(lower, x);
    SuffixTrimmed(x, ".git");
    NormalizedIsSchemaKey(lower, v);
  }

  lemma SameMapping(lower: char -> char, s: string)
    ensures Mapped(lower, s) == Mapped(LowerChar, s) <==> !ChangesBeyondASCII(lower, s)
  {
    if i :| 0 <= i < |s| && lower(s[i]) != LowerChar(s[i]) {
      assert Mapped(lower, s)[i] != Mapped(LowerChar, s)[i];
    }
  }

  lemma NormalizedIsSchemaKey(lower: char -> char, u: string)
    requires LowerCase(lower) && AdmittedURL(u)
    ensures NormalizedBy(lower, u) == SchemaKey(u) <==> !OddlySpelled(lower, u)
  {
    hide LowerCase, IsSpace, ChangesBeyondASCII, Bare, AdmittedURL;
    AdmittedEnds(u);
    BareDrops(u);
    SameMapping(lower, u);
    SameMapping(lower, TrimSuffix(u, ".git"));
    if HasSuffix(u, ".git") {
      MappedSuffix(lower, u);
    } else if IsSpace(u[|u| - 1]) {
      assert |NormalizedBy(lower, u)| <= |Bare(u)| < |u|;
    } else if MixedCaseGit(lower, u) {
      assert |NormalizedBy(lower, u)| == |u| - 4;
    }
  }

  /** Another plainly spelled URL that the schema takes for the same one and the code does not. */
  lemma SpacedURLDisagrees(lower: char -> char, u: string) returns (v: string)
    requires LowerCase(lower) && AdmittedURL(u) && IsSpace(u[|u| - 1]) && !ChangesBeyondASCII(lower, u)
    ensures AdmittedURL(v) && !OddlySpelled(lower, v)
    ensures !SameBy(lower, u, v) && SchemaKey(u) == SchemaKey(v)
  {
    hide LowerCase, IsSpace, ChangesBeyondASCII, Bare, OddlySpelled, TrimSuffix, AdmittedURL;
    v := u + ".git";
    AdmittedEnds(u);
    GitIsAdmitted(u);
    GitAdded(lower, u);
    BareDrops(u);
    assert |NormalizedBy(lower, u)| <= |Bare(u)| < |u| by {
      TrimmedIsShorter(Mapped(lower, Bare(u)), ".git");
    }
    if HasSuffix(u, ".git") {
      MappedSuffix(lower, u);
      assert false;
    }
    NoSuffixToTrim(u, ".git");
  }

  lemma GitIsAdmitted(u: string)
    requires AdmittedURL(u)
    ensures AdmittedURL(u + ".git")
  {
    var host, owner, name :| URLParts(u, host, owner, name);
    PartGoesOn(name);
    assert u + ".git" == UpToName(host, owner) + (name + ".git");
    assert URLParts(u + ".git", host, owner, name + ".git");
  }

  lemma PartGoesOn(s: string)
    requires PathPart(s)
    ensures PathPart(s + ".git")
  {}

  lemma TrimmedIsShorter(s: string, suffix: string)
    ensures |TrimSuffix(s, suffix)| <= |s|
  {}

  lemma NoSuffixToTrim(s: string, suffix: string)
    requires !HasSuffix(s, suffix)
    ensures TrimSuffix(s, suffix) == s
  {}

  lemma NormalizedIsLowered(lower: char -> char, u: string)
    requires LowerCase(lower)
    ensures !ChangesBeyondASCII(lower, NormalizedBy(lower, u))
    ensures Mapped(LowerChar, NormalizedBy(lower, u)) == NormalizedBy(lower, u)
  {
    hide Bare, IsSpace;
    var n, m := NormalizedBy(lower, u), Mapped(lower, Bare(u));
    assert forall i | 0 <= i < |n| :: n[i] == m[i] == lower(Bare(u)[i]);
    forall i | 0 <= i < |n| ensures lower(n[i]) == LowerChar(n[i]) == n[i] {
      assert lower(n[i]) == n[i];
      assert n[i] < '\U{80}' ==> lower(n[i]) == LowerChar(n[i]);
    }
  }

  lemma MappedPart(lower: char -> char, s: string)
    requires LowerCase(lower) && PathPart(s)
    ensures PathPart(Mapped(lower, s)) && (HostPart(s) ==> HostPart(Mapped(lower, s)))
  {
    var m := Mapped(lower, s);
    forall i | 0 <= i < |m| ensures !PatternSpace(m[i]) && m[i] != '/' && m[i] != '?' && m[i] != '#' {
      assert m[i] == lower(s[i]);
      assert PatternSpace(m[i]) ==> IsSpace(m[i]);
      assert IsSpace(m[i]) || m[i] in PUNCTUATION ==> m[i] == s[i];
    }
    forall i | 0 <= i < |m| && m[i] == '@' ensures s[i] == '@' {
      assert m[i] == lower(s[i]) && m[i] in PUNCTUATION;
    }
  }

  lemma MappedJoin(lower: char -> char, a: string, b: string)
    ensures Mapped(lower, a + b) == Mapped(lower, a) + Mapped(lower, b)
  {}

  lemma MappedUpToName(lower: char -> char, host: string, owner: string)
    requires LowerCase(lower)
    ensures Mapped(lower, UpToName(host, owner)) == UpToName(Mapped(lower, host), Mapped(lower, owner))
  {
    hide Mapped, LowerCase;
    assert Mapped(lower, "https://") == "https://" && Mapped(lower, "/") == "/" by {
      MappedFixed(lower);
    }
    MappedJoin(lower, "https://", host);
    MappedJoin(lower, "https://" + host, "/");
    MappedJoin(lower, "https://" + host + "/", owner);
    MappedJoin(lower, "https://" + host + "/" + owner, "/");
  }

  lemma MappedFixed(lower: char -> char)
    requires LowerCase(lower)
    ensures Mapped(lower, "https://") == "https://" && Mapped(lower, "/") == "/"
  {
    assert forall i | 0 <= i < 8 :: lower("https://"[i]) == LowerChar("https://"[i]) == "https://"[i];
  }

  /** What is left of a URL whose name is not blank: some of the name is. */
  lemma BareKeepsName(u: string, host: string, owner: string, name: string) returns (k: nat)
    requires URLParts(u, host, owner, name) && !BlankName(u)
    ensures 0 < k <= |name| && Bare(u) == UpToName(host, owner) + name[..k]
  {
    k := TrimKeepsPrefix(u, host, owner, name);
    LastOfCut(UpToName(host, owner), name, k);
    TrimRightDrops(TrimSpace(u), '/');
    assert Bare(u) == TrimSpace(u);
  }

  lemma LastOfCut(h: string, name: string, k: nat)
    requires h != "" && k <= |name|
    ensures (h + name[..k])[|h| + k - 1] == if k == 0 then h[|h| - 1] else name[k - 1]
  {}

  lemma TrimKeepsPrefix(u: string, host: string, owner: string, name: string) returns (k: nat)
    requires URLParts(u, host, owner, name)
    ensures k <= |name| && TrimSpace(u) == UpToName(host, owner) + name[..k]
  {
    var h, t := UpToName(host, owner), TrimSpace(u);
    assert u[0] == 'h' && u[|h| - 1] == '/';
    TrimSpaceDrops(u);
    assert |t| >= |h|;
    k := |t| - |h|;
    assert t == u[..|t|] == h + name[..k];
  }

  /** The normal form of a URL whose name is not blank, with ".git" after it, is admitted. */
  lemma NormalizedIsAdmitted(lower: char -> char, u: string)
    requires LowerCase(lower) && AdmittedURL(u) && !BlankName(u)
    ensures AdmittedURL(NormalizedBy(lower, u) + ".git")
  {
    hide LowerCase, Mapped, PathPart, Bare, BlankName;
    var host, owner, name :| URLParts(u, host, owner, name);
    var k := BareKeepsName(u, host, owner, name);
    var some := name[..k];
    PartStarts(name, k);
    MappedPart(lower, host);
    MappedPart(lower, owner);
    MappedPart(lower, some);
    MappedUpToName(lower, host, owner);
    MappedJoin(lower, UpToName(host, owner), some);
    var m := Mapped(lower, Bare(u));
    var h, o, n := Mapped(lower, host), Mapped(lower, owner), Mapped(lower, some);
    assert m == UpToName(h, o) + n;
    assert URLParts(m, h, o, n);
    if !HasSuffix(m, ".git") {
      GitIsAdmitted(m);
    }
  }

  lemma PartStarts(s: string, k: nat)
    requires PathPart(s) && 0 < k <= |s|
    ensures PathPart(s[..k])
  {}

  /** Another plainly spelled URL that the code takes for the same one and the schema does not. */
  lemma LoweredURLDisagrees(lower: char -> char, u: string) returns (v: string)
    requires LowerCase(lower) && AdmittedURL(u) && OddlySpelled(lower, u) && !BlankName(u)
    ensures AdmittedURL(v) && !OddlySpelled(lower, v)
    ensures SameBy(lower, u, v) && SchemaKey(u) != SchemaKey(v)
  {
    hide LowerCase, IsSpace, ChangesBeyondASCII, Bare, NormalizedBy, Mapped, SchemaKey, OddlySpelled;
    hide AdmittedURL, BlankName;
    v := NormalizedBy(lower, u) + ".git";
    NormalizedIsAdmitted(lower, u);
    NormalizedIsLowered(lower, u);
    GitAdded(lower, NormalizedBy(lower, u));
    NormalizedIsSchemaKey(lower, u);
  }

  // A URL with a blank name and letters beyond ASCII to lower meets no plainly spelled one, either way.

  function Slashes(s: string): nat {
    multiset(s)['/']
  }

  lemma SlashesAdd(a: string, b: string)
    ensures Slashes(a + b) == Slashes(a) + Slashes(b)
  {
    assert multiset(a + b) == multiset(a) + multiset(b);
  }

  lemma {:induction false} SlashesMapped(lower: char -> char, s: string)
    requires LowerCase(lower)
    ensures Slashes(Mapped(lower, s)) == Slashes(s)
  {
    if s != "" {
      var n := |s| - 1;
      SlashesMapped(lower, s[..n]);
      assert s == s[..n] + [s[n]];
      assert Mapped(lower, s) == Mapped(lower, s[..n]) + [lower(s[n])];
      SlashesAdd(s[..n], [s[n]]);
      SlashesAdd(Mapped(lower, s[..n]), [lower(s[n])]);
      assert lower(s[n]) == '/' <==> s[n] == '/';
    }
  }

  lemma NoSlash(s: string)
    requires forall i | 0 <= i < |s| :: s[i] != '/'
    ensures Slashes(s) == 0
  {
    assert '/' !in s;
  }

  lemma SlashesTrimmed(s: string)
    ensures Slashes(TrimSuffix(s, ".git")) == Slashes(s)
  {
    if HasSuffix(s, ".git") {
      SlashesAdd(TrimSuffix(s, ".git"), ".git");
      NoSlash(".git");
    }
  }

  lemma SlashesOfParts(u: string, host: string, owner: string, name: string)
    requires URLParts(u, host, owner, name)
    ensures Slashes(UpToName(host, owner)) == 4 && Slashes(u) == 4
  {
    NoSlash(host);
    NoSlash(owner);
    NoSlash(name);
    SlashesAdd("https://", host);
    SlashesAdd("https://" + host, "/");
    SlashesAdd("https://" + host + "/", owner);
    SlashesAdd("https://" + host + "/" + owner, "/");
    SlashesAdd(UpToName(host, owner), name);
    assert multiset("https://")['/'] == 2 && multiset("/")['/'] == 1;
  }

  lemma BlankLosesASlash(u: string)
    requires AdmittedURL(u) && BlankName(u)
    ensures Slashes(Bare(u)) < 4
  {
    hide IsSpace;
    var host, owner, name :| URLParts(u, host, owner, name);
    var k := TrimKeepsPrefix(u, host, owner, name);
    var h, t := UpToName(host, owner), TrimSpace(u);
    SlashAtCut(h, name, k);
    assert t == h;
    SlashesOfParts(u, host, owner, name);
    SlashTrimmed(t);
  }

  lemma SlashAtCut(h: string, name: string, k: nat)
    requires PathPart(name) && h != "" && k <= |name| && (h + name[..k])[|h| + k - 1] == '/'
    ensures k == 0
  {
    LastOfCut(h, name, k);
  }

  lemma SlashTrimmed(t: string)
    requires t != "" && t[|t| - 1] == '/'
    ensures Slashes(TrimRight(t, '/')) < Slashes(t)
  {
    TrimRightDrops(t, '/');
    var b := TrimRight(t, '/');
    var rest := t[|b|..];
    assert t == b + rest && rest[0] == '/';
    SlashesAdd(b, rest);
    assert '/' in rest;
  }

  lemma BlankMeetsNoPlainURL(lower: char -> char, u: string, v: string)
    requires LowerCase(lower) && AdmittedURL(u) && BlankName(u) && ChangesBeyondASCII(lower, u)
    requires AdmittedURL(v) && !OddlySpelled(lower, v)
    ensures !SameBy(lower, u, v) && SchemaKey(u) != SchemaKey(v)
  {
    hide LowerCase, IsSpace, Bare, Mapped, MixedCaseGit, AdmittedURL, BlankName, Slashes, ChangesBeyondASCII;
    LowerCharIsLowerCase();
    BlankLosesASlash(u);
    SlashesMapped(lower, Bare(u));
    SlashesTrimmed(Mapped(lower, Bare(u)));
    NormalizedIsSchemaKey(lower, v);
    AdmittedSlashes(v);
    SlashesTrimmed(v);
    SlashesMapped(LowerChar, TrimSuffix(v, ".git"));
    KeysDiffer(lower, u, v);
  }

  lemma AdmittedSlashes(v: string)
    requires AdmittedURL(v)
    ensures Slashes(v) == 4
  {
    var host, owner, name :| URLParts(v, host, owner, name);
    SlashesOfParts(v, host, owner, name);
  }

  /** The schema's keys keep the letters beyond ASCII. */
  lemma KeysDiffer(lower: char -> char, u: string, v: string)
    requires LowerCase(lower) && ChangesBeyondASCII(lower, u) && !ChangesBeyondASCII(lower, v)
    ensures SchemaKey(u) != SchemaKey(v)
  {
    hide IsSpace;
    var a, b := TrimSuffix(u, ".git"), TrimSuffix(v, ".git");
    if HasSuffix(u, ".git") {
      MappedSuffix(lower, u);
    }
    var i :| 0 <= i < |a| && lower(a[i]) != LowerChar(a[i]);
    assert a[i] >= '\U{80}' && SchemaKey(u)[i] == a[i];
    assert i < |b| ==> SchemaKey(v)[i] == LowerChar(b[i]) && v[i] == b[i];
  }

  /** The code compares URLs as the schema rule does, except the oddly spelled ones: each of them
      disagrees with some plainly spelled URL, unless the name is blank and there is a letter to
      lower, when there is none to take it for, either way. */
  lemma ComparesLikeTheSchema(lower: char -> char, u: string)
    requires LowerCase(lower) && AdmittedURL(u)
    ensures !OddlySpelled(lower, u) || (BlankName(u) && ChangesBeyondASCII(lower, u)) <==>
            forall v | AdmittedURL(v) && !OddlySpelled(lower, v) ::
              SameBy(lower, u, v) <==> SchemaKey(u) == SchemaKey(v)
  {
    hide NormalizedBy, SchemaKey, OddlySpelled, LowerCase, BlankName, ChangesBeyondASCII, AdmittedURL, IsSpace;
    if !OddlySpelled(lower, u) {
      NormalizedIsSchemaKey(lower, u);
      forall v | AdmittedURL(v) && !OddlySpelled(lower, v)
        ensures SameBy(lower, u, v) <==> SchemaKey(u) == SchemaKey(v)
      {
        NormalizedIsSchemaKey(lower, v);
      }
    } else if !BlankName(u) {
      var v := LoweredURLDisagrees(lower, u);
    } else if !ChangesBeyondASCII(lower, u) {
      BlankEndsInSpace(u);
      var v := SpacedURLDisagrees(lower, u);
    } else {
      forall v | AdmittedURL(v) && !OddlySpelled(lower, v)
        ensures SameBy(lower, u, v) <==> SchemaKey(u) == SchemaKey(v)
      {
        BlankMeetsNoPlainURL(lower, u, v);
      }
    }
  }

  lemma BlankEndsInSpace(u: string)
    requires AdmittedURL(u) && BlankName(u)
    ensures IsSpace(u[|u| - 1])
  {
    AdmittedEnds(u);
    assert u[0] == 'h';
    TrimSpaceDrops(u);
  }

  lemma LoweredGit()
    ensures Mapped(LowerChar, ".GIT") == ".git"
  {
    var m := Mapped(LowerChar, ".GIT");
    assert m[0] == '.' && m[1] == LowerChar('G') == 'g';
    assert m[2] == LowerChar('I') == 'i' && m[3] == LowerChar('T') == 't';
  }

  /** Admitted URLs that the code and the schema's rule compare differently. */
  lemma OddURLs()
    ensures AdmittedURL("https://h/o/r.GIT") && OddlySpelled(LowerChar, "https://h/o/r.GIT")
    ensures AdmittedURL("https://h/o/r\U{A0}") && OddlySpelled(LowerChar, "https://h/o/r\U{A0}")
  {
    hide Mapped;
    var u, v, x := "https://h/o/r.GIT", "https://h/o/r\U{A0}", "https://h/o/r";
    assert URLParts(u, "h", "o", "r.GIT") && URLParts(v, "h", "o", "r\U{A0}");
    assert x + ".GIT" == u;
    MappedJoin(LowerChar, x, ".GIT");
    LoweredGit();
    SuffixTrimmed(Mapped(LowerChar, x), ".git");
    assert u[|u| - 1] == 'T' && v[|v| - 1] == '\U{A0}';
  }

  /** The derivation below compares with the ASCII letters lowered. */
  predicate SameRepositoryURL(a: string, b: string) {
    SameBy(LowerChar, a, b)
  }

  /** The derivation compares plainly spelled URLs as the schema does. */
  lemma SameAsTheSchema(u: string, v: string)
    requires AdmittedURL(u) && AdmittedURL(v)
    requires !OddlySpelled(LowerChar, u) && !OddlySpelled(LowerChar, v)
    ensures SameRepositoryURL(u, v) <==> SchemaKey(u) == SchemaKey(v)
  {
    LowerCharIsLowerCase();
    NormalizedIsSchemaKey(LowerChar, u);
    NormalizedIsSchemaKey(LowerChar, v);
    hide OddlySpelled, NormalizedBy, SchemaKey, LowerCase, LowerChar, AdmittedURL;
  }

  // ---- patterns ----

  predicate SegmentChar(c: char) {
    'a' <= c <= 'z' || '0' <= c <= '9' || c == '-'
  }

  predicate Segment(s: string) {
    s != "" && forall c | c in s :: SegmentChar(c)
  }

  /** ^/([a-z0-9-]+(/[a-z0-9-]+)*)?$ */
  predicate PreviewPathPattern(path: string) {
    && "/" <= path
    && (path == "/" || forall s | s in Split(path[1..], '/') :: Segment(s))
  }

  /** ^[0-9a-f]{40}$ */
  predicate RevisionPattern(s: string) {
    |s| == 40 && forall c | c in s :: '0' <= c <= '9' || 'a' <= c <= 'f'
  }

  /** ^/[a-zA-Z0-9/_-]*$ */
  predicate ReadinessPattern(s: string) {
    "/" <= s && forall c | c in s :: Alnum(c) || 'A' <= c <= 'Z' || c == '/' || c == '_' || c == '-'
  }

  /** [a-z0-9][a-z0-9.:-]* */
  predicate RegistryHost(s: string) {
    s != "" && Alnum(s[0]) && forall c | c in s :: Alnum(c) || c == '.' || c == ':' || c == '-'
  }

  /** [a-z0-9]+([._-][a-z0-9]+)*: single separators inside. */
  predicate ImageSegment(s: string) {
    && s != "" && Alnum(s[0]) && Alnum(s[|s| - 1])
    && forall i | 0 < i < |s| - 1 ::
         Alnum(s[i]) || ((s[i] == '.' || s[i] == '_' || s[i] == '-') && Alnum(s[i - 1]) && Alnum(s[i + 1]))
  }

  /** A registry host, one or more segments and a leaf that is a label. */
  predicate ImagePattern(s: string) {
    var parts := Split(s, '/');
    && |parts| >= 3 && RegistryHost(parts[0]) && DNSLabel(parts[|parts| - 1])
    && forall i | 0 < i < |parts| - 1 :: ImageSegment(parts[i])
  }

  /** The preview path pattern, told by its characters: at the root, or down from it with no slash
      at the end and no two together. */
  predicate PlainPath(path: string) {
    path == "/" || (path != "" && path[0] == '/' && PlainSegments(path[1..]))
  }

  predicate PlainSegments(s: string) {
    && s != "" && s[0] != '/' && s[|s| - 1] != '/'
    && (forall i | 0 <= i < |s| :: 'a' <= s[i] <= 'z' || '0' <= s[i] <= '9' || s[i] == '-' || s[i] == '/')
    && (forall i | 0 < i < |s| :: !DoubleSlash(s, i))
  }

  predicate DoubleSlash(s: string, i: nat)
    requires 0 < i < |s|
  {
    s[i - 1] == '/' && s[i] == '/'
  }

  lemma PlainSegmentsCons(c: char, s: string)
    ensures PlainSegments([c] + s) <==>
            && ('a' <= c <= 'z' || '0' <= c <= '9' || c == '-')
            && (s == "" || PlainSegments(s) || (s[0] == '/' && PlainSegments(s[1..])))
  {
    var t := [c] + s;
    assert t[0] == c && forall i | 0 < i < |t| :: t[i] == s[i - 1];
    if s != "" && c != '/' {
      if s[0] == '/' {
        PlainAfterSlash(t, s[1..]);
      } else {
        PlainAfterLetter(t, s);
      }
    }
  }

  lemma PlainAfterSlash(t: string, u: string)
    requires |t| == |u| + 2 && t[1] == '/' && t[0] != '/' && forall i | 0 <= i < |u| :: u[i] == t[i + 2]
    ensures PlainSegments(t) <==>
            ('a' <= t[0] <= 'z' || '0' <= t[0] <= '9' || t[0] == '-') && PlainSegments(u)
  {
    assert forall i | 2 <= i < |t| :: t[i] == u[i - 2];
    if PlainSegments(t) {
      assert |t| > 2 && !DoubleSlash(t, 2);
      forall i | 0 < i < |u| ensures !DoubleSlash(u, i) {
        assert !DoubleSlash(t, i + 2);
      }
    }
    if PlainSegments(u) {
      forall i | 0 < i < |t| ensures !DoubleSlash(t, i) {
        assert i > 2 ==> !DoubleSlash(u, i - 2);
      }
    }
  }

  lemma PlainAfterLetter(t: string, u: string)
    requires u != "" && u[0] != '/' && |t| == |u| + 1 && t[0] != '/' && forall i | 0 <= i < |u| :: u[i] == t[i + 1]
    ensures PlainSegments(t) <==>
            ('a' <= t[0] <= 'z' || '0' <= t[0] <= '9' || t[0] == '-') && PlainSegments(u)
  {
    assert forall i | 1 <= i < |t| :: t[i] == u[i - 1];
    if PlainSegments(t) {
      forall i | 0 < i < |u| ensures !DoubleSlash(u, i) {
        assert !DoubleSlash(t, i + 1);
      }
    }
    if PlainSegments(u) {
      forall i | 0 < i < |t| ensures !DoubleSlash(t, i) {
        assert i > 1 ==> !DoubleSlash(u, i - 1);
      }
    }
  }

  predicate AllSegments(parts: seq<string>) {
    forall s | s in parts :: Segment(s)
  }

  lemma AllSegmentsCons(head: string, rest: seq<string>)
    ensures AllSegments([head] + rest) <==> Segment(head) && AllSegments(rest)
  {
    assert ([head] + rest)[0] == head && forall i | 0 <= i < |rest| :: ([head] + rest)[i + 1] == rest[i];
  }

  lemma SegmentCons(c: char, s: string)
    ensures Segment([c] + s) <==> SegmentChar(c) && (s == "" || Segment(s))
  {
    assert ([c] + s)[0] == c && forall i | 0 <= i < |s| :: ([c] + s)[i + 1] == s[i];
  }

  lemma {:induction false} SplitSegments(s: string)
    ensures AllSegments(Split(s, '/')) <==> PlainSegments(s)
  {
    if s == "" {
      assert "" in Split(s, '/');
    } else {
      var c, u := s[0], s[1..];
      assert s == [c] + u;
      PlainSegmentsCons(c, u);
      var rest := Split(u, '/');
      if c == '/' {
        AllSegmentsCons("", rest);
      } else {
        SplitSegments(u);
        SegmentCons(c, rest[0]);
        AllSegmentsCons([c] + rest[0], rest[1..]);
        AllSegmentsCons(rest[0], rest[1..]);
        assert rest == [rest[0]] + rest[1..];
        if u == "" {
          assert rest[1..] == [];
        } else if u[0] == '/' {
          SplitSegments(u[1..]);
          assert rest[1..] == Split(u[1..], '/');
        }
      }
    }
  }

  lemma PathPatternIsPlain(path: string)
    ensures PreviewPathPattern(path) <==> PlainPath(path)
  {
    if path != "" && path[0] == '/' {
      SplitSegments(path[1..]);
    }
  }

  // ---- which repositories are previewed ----

  function EffectivePath(preview: ProjectRepositoryPreview): string {
    if preview.path == "" then "/" else preview.path
  }

  function AsPreviewed(r: ProjectRepository): RepositoryPreview
    requires r.preview.Some?
  {
    RepositoryPreview(r.name, r.url, r.preview.value.contract, EffectivePath(r.preview.value))
  }

  /** The repositories that opt in, in Project order. */
  function Previewed(repos: seq<ProjectRepository>): seq<RepositoryPreview> {
    if repos == [] then []
    else
      var last := repos[|repos| - 1];
      Previewed(repos[..|repos| - 1]) + if last.preview.Some? then [AsPreviewed(last)] else []
  }

  lemma PreviewedSnoc(repos: seq<ProjectRepository>, r: ProjectRepository)
    ensures Previewed(repos + [r]) == Previewed(repos) + if r.preview.Some? then [AsPreviewed(r)] else []
  {
    Snoc(repos, r);
  }

  lemma PreviewedOne(r: ProjectRepository)
    ensures Previewed([r]) == if r.preview.Some? then [AsPreviewed(r)] else []
  {
    assert [r] == [] + [r];
    PreviewedSnoc([], r);
  }

  /** The rules the code checks for itself. */
  ghost predicate CheckedRules(p: Project) {
    var previewed := Previewed(p.repositories);
    && (p.preview.Some? ==> |p.repositories| == 1 && previewed == [])
    && |previewed| <= MAX_PREVIEW_COMPONENTS
    && WellPlaced(previewed)
  }

  ghost predicate WellPlaced(previewed: seq<RepositoryPreview>) {
    DistinctPaths(previewed) && forall rp | rp in previewed :: PreviewPathPattern(rp.path)
  }

  lemma WellPlacedSnoc(previewed: seq<RepositoryPreview>, rp: RepositoryPreview)
    ensures WellPlaced(previewed + [rp]) <==>
            WellPlaced(previewed) && PreviewPathPattern(rp.path) && !exists o :: o in previewed && o.path == rp.path
  {
    hide PreviewPathPattern;
    var longer := previewed + [rp];
    assert longer[|previewed|] == rp && forall i | 0 <= i < |previewed| :: longer[i] == previewed[i];
    if WellPlaced(longer) {
      assert forall i, j | 0 <= i < j < |previewed| :: longer[i].path != longer[j].path;
      assert forall o | o in previewed :: o in longer;
    }
  }

  lemma {:induction false} WellPlacedPrefix(previewed: seq<RepositoryPreview>, k: nat)
    requires WellPlaced(previewed) && k <= |previewed|
    ensures WellPlaced(previewed[..k])
  {
    hide PreviewPathPattern;
  }

  ghost predicate DistinctPaths(previewed: seq<RepositoryPreview>) {
    forall i, j | 0 <= i < j < |previewed| :: previewed[i].path != previewed[j].path
  }

  ghost predicate OverlongPath(p: Project) {
    exists rp :: rp in Previewed(p.repositories) && |rp.path| > MAX_PREVIEW_PATH_LENGTH
  }

  ghost predicate RepeatedName(p: Project) {
    exists i, j :: 0 <= i < j < |p.repositories| && p.repositories[i].name == p.repositories[j].name
  }

  ghost predicate RepeatedURL(p: Project) {
    exists i, j ::
      0 <= i < j < |p.repositories| && SchemaKey(p.repositories[i].url) == SchemaKey(p.repositories[j].url)
  }

  ghost predicate ContractRules(c: ProjectPreview) {
    && 1 <= |c.imageRepository| <= MAX_IMAGE_LENGTH && ImagePattern(c.imageRepository)
    && 1 <= c.port <= 65535
    && |c.readinessPath| <= MAX_READINESS_PATH_LENGTH && ReadinessPattern(c.readinessPath)
  }

  ghost predicate RepositoryRules(r: ProjectRepository) {
    && DNSLabel(r.name) && |r.name| <= MAX_REPOSITORY_NAME_LENGTH
    && AdmittedURL(r.url) && |r.url| <= MAX_URL_LENGTH
    && (r.preview.Some? ==> ContractRules(r.preview.value.contract))
  }

  ghost predicate FieldRules(p: Project) {
    (p.preview.Some? ==> ContractRules(p.preview.value)) && forall r | r in p.repositories :: RepositoryRules(r)
  }

  /** Everything the schema asks of a Project's repositories and previews. */
  ghost predicate SchemaRules(p: Project) {
    && CheckedRules(p) && FieldRules(p)
    && 1 <= |p.repositories| <= MAX_REPOSITORIES
    && (forall i, j | 0 <= i < j < |p.repositories| ::
          && p.repositories[i].name != p.repositories[j].name
          && SchemaKey(p.repositories[i].url) != SchemaKey(p.repositories[j].url))
    && (forall rp | rp in Previewed(p.repositories) :: |rp.path| <= MAX_PREVIEW_PATH_LENGTH)
  }

  /** The faults the code does not look for. */
  ghost predicate UncheckedFault(p: Project) {
    || !FieldRules(p) || |p.repositories| > MAX_REPOSITORIES
    || RepeatedName(p) || RepeatedURL(p) || OverlongPath(p)
  }

  ghost predicate HasPreview(p: Project) {
    p.preview.Some? || exists r :: r in p.repositories && r.preview.Some?
  }

  ghost function Effective(p: Project): seq<RepositoryPreview> {
    if !CheckedRules(p) then []
    else if p.preview.Some? then
      [RepositoryPreview(p.repositories[0].name, p.repositories[0].url, p.preview.value, "/")]
    else Previewed(p.repositories)
  }

  lemma {:induction false} PreviewedIsFiltered(repos: seq<ProjectRepository>)
    ensures Previewed(repos) != [] <==> exists r :: r in repos && r.preview.Some?
  {
    if repos != [] {
      var init, last := repos[..|repos| - 1], repos[|repos| - 1];
      PreviewedIsFiltered(init);
      assert repos == init + [last];
      assert last in repos && forall r | r in init :: r in repos;
    }
  }

  lemma {:induction false} PreviewedPrefix(repos: seq<ProjectRepository>, k: nat)
    requires k <= |repos|
    ensures Previewed(repos[..k]) <= Previewed(repos)
    decreases |repos|
  {
    if k < |repos| {
      PreviewedPrefix(repos[..|repos| - 1], k);
      assert repos[..|repos| - 1][..k] == repos[..k];
    } else {
      assert repos[..k] == repos;
    }
  }

  /** A Project previews something exactly when it asks to and the checked rules hold. */
  lemma PreviewsWhenChecked(p: Project)
    ensures Effective(p) != [] <==> HasPreview(p) && CheckedRules(p)
    ensures |Effective(p)| <= MAX_PREVIEW_COMPONENTS && DistinctPaths(Effective(p))
    ensures forall rp | rp in Effective(p) :: PreviewPathPattern(rp.path)
  {
    PreviewedIsFiltered(p.repositories);
  }

  /** Positions of the previewed repositories in the Project, strictly increasing. */
  function Positions(repos: seq<ProjectRepository>): seq<nat> {
    if repos == [] then []
    else
      var n := |repos| - 1;
      Positions(repos[..n]) + if repos[n].preview.Some? then [n] else []
  }

  /** The repositories at these positions, and no others, are previewed, in this order. */
  ghost predicate InOrder(repos: seq<ProjectRepository>, at: seq<nat>, previewed: seq<RepositoryPreview>) {
    && |at| == |previewed|
    && (forall i | 0 <= i < |at| :: at[i] < |repos| && PreviewOf(repos[at[i]], previewed[i]))
    && (forall k | 0 <= k < |repos| && repos[k].preview.Some? :: k in at)
    && (forall i, j | 0 <= i < j < |at| :: at[i] < at[j])
  }

  /** Its own name, URL and contract, at its path or at the root when the path is omitted. */
  predicate PreviewOf(r: ProjectRepository, rp: RepositoryPreview) {
    && r.preview.Some?
    && rp.name == r.name && rp.url == r.url && rp.preview == r.preview.value.contract
    && rp.path == (if r.preview.value.path == "" then "/" else r.preview.value.path)
  }

  lemma OneMoreInOrder(
    repos: seq<ProjectRepository>, r: ProjectRepository, at: seq<nat>, previewed: seq<RepositoryPreview>)
    requires InOrder(repos, at, previewed)
    ensures if r.preview.Some? then InOrder(repos + [r], at + [|repos|], previewed + [AsPreviewed(r)])
            else InOrder(repos + [r], at, previewed)
  {
    var all := repos + [r];
    assert |all| == |repos| + 1 && all[|repos|] == r && forall k | 0 <= k < |repos| :: all[k] == repos[k];
    if r.preview.Some? {
      hide PreviewOf;
      var n, longer, out := |at|, at + [|repos|], previewed + [AsPreviewed(r)];
      assert PreviewOf(r, AsPreviewed(r)) by {
        ItsOwnPreview(r);
      }
      forall i | 0 <= i < |longer| ensures longer[i] < |all| && PreviewOf(all[longer[i]], out[i]) {
        assert i < n ==> longer[i] == at[i] && out[i] == previewed[i];
      }
      forall k | 0 <= k < |all| && all[k].preview.Some? ensures k in longer {
        assert longer[n] == |repos|;
      }
    }
  }

  lemma ItsOwnPreview(r: ProjectRepository)
    requires r.preview.Some?
    ensures PreviewOf(r, AsPreviewed(r))
  {}

  lemma {:induction false} PreviewedInProjectOrder(repos: seq<ProjectRepository>)
    ensures InOrder(repos, Positions(repos), Previewed(repos))
  {
    if repos != [] {
      hide InOrder;
      var n := |repos| - 1;
      PreviewedInProjectOrder(repos[..n]);
      OneMoreInOrder(repos[..n], repos[n], Positions(repos[..n]), Previewed(repos[..n]));
      Unsnoc(repos);
    }
  }

  /** The positions of the repositories that opt in. */
  ghost function OptedIn(repos: seq<ProjectRepository>): set<nat> {
    set k: nat | k < |repos| && repos[k].preview.Some?
  }

  function PathAt(repos: seq<ProjectRepository>, k: nat): string
    requires k < |repos| && repos[k].preview.Some?
  {
    if repos[k].preview.value.path == "" then "/" else repos[k].preview.value.path
  }

  lemma OptedInSnoc(repos: seq<ProjectRepository>, r: ProjectRepository)
    ensures OptedIn(repos + [r]) == OptedIn(repos) + if r.preview.Some? then {|repos|} else {}
  {
    Snoc(repos, r);
    assert forall k | 0 <= k < |repos| :: (repos + [r])[k] == repos[k];
  }

  lemma {:induction false} PreviewedAreCounted(repos: seq<ProjectRepository>)
    ensures |Previewed(repos)| == |OptedIn(repos)|
  {
    if repos == [] {
      assert OptedIn(repos) == {};
    } else {
      var init, last := repos[..|repos| - 1], repos[|repos| - 1];
      Unsnoc(repos);
      PreviewedAreCounted(init);
      assert |init| !in OptedIn(init);
      hide Previewed, OptedIn;
      OptedInSnoc(init, last);
      PreviewedSnoc(init, last);
    }
  }

  /** The rules on the paths, told of the repositories that opt in. */
  ghost predicate PathsAsAsked(repos: seq<ProjectRepository>) {
    && (forall k | k in OptedIn(repos) :: PlainPath(PathAt(repos, k)))
    && (forall i, j | i in OptedIn(repos) && j in OptedIn(repos) && i < j :: PathAt(repos, i) != PathAt(repos, j))
  }

  /** The previews stand at the opted-in positions, one each, with the path asked for there. */
  ghost predicate LinedUp(repos: seq<ProjectRepository>, at: seq<nat>, previewed: seq<RepositoryPreview>) {
    && |previewed| == |at|
    && (forall k | k in OptedIn(repos) :: k in at)
    && (forall i | 0 <= i < |at| :: at[i] in OptedIn(repos) && previewed[i].path == PathAt(repos, at[i]))
    && (forall i, j | 0 <= i < j < |at| :: at[i] < at[j])
  }

  lemma PreviewedLineUp(repos: seq<ProjectRepository>)
    ensures LinedUp(repos, Positions(repos), Previewed(repos))
  {
    PreviewedInProjectOrder(repos);
    hide Previewed, Positions;
  }

  lemma PlainWhereAsked(repos: seq<ProjectRepository>, at: seq<nat>, previewed: seq<RepositoryPreview>)
    requires LinedUp(repos, at, previewed)
    ensures (forall rp | rp in previewed :: PreviewPathPattern(rp.path))
            <==> (forall k | k in OptedIn(repos) :: PlainPath(PathAt(repos, k)))
  {
    hide PreviewPathPattern, PlainPath, PathAt;
    forall i | 0 <= i < |at|
      ensures PreviewPathPattern(previewed[i].path) <==> PlainPath(PathAt(repos, at[i]))
    {
      PathPatternIsPlain(previewed[i].path);
    }
    if forall rp | rp in previewed :: PreviewPathPattern(rp.path) {
      forall k | k in OptedIn(repos) ensures PlainPath(PathAt(repos, k)) {
        var i :| 0 <= i < |at| && at[i] == k;
        assert previewed[i] in previewed;
      }
    }
    if forall k | k in OptedIn(repos) :: PlainPath(PathAt(repos, k)) {
      forall rp | rp in previewed ensures PreviewPathPattern(rp.path) {
        var i :| 0 <= i < |previewed| && previewed[i] == rp;
      }
    }
  }

  lemma DistinctWhereAsked(repos: seq<ProjectRepository>, at: seq<nat>, previewed: seq<RepositoryPreview>)
    requires LinedUp(repos, at, previewed)
    ensures (forall i, j | 0 <= i < j < |previewed| :: previewed[i].path != previewed[j].path)
            <==> (forall k, l | k in OptedIn(repos) && l in OptedIn(repos) && k < l ::
                    PathAt(repos, k) != PathAt(repos, l))
  {
    hide PathAt;
    if forall i, j | 0 <= i < j < |previewed| :: previewed[i].path != previewed[j].path {
      forall k, l | k in OptedIn(repos) && l in OptedIn(repos) && k < l ensures PathAt(repos, k) != PathAt(repos, l) {
        var i :| 0 <= i < |at| && at[i] == k;
        var j :| 0 <= j < |at| && at[j] == l;
        assert i < j;
      }
    }
  }

  lemma PlacedAsAsked(repos: seq<ProjectRepository>)
    ensures WellPlaced(Previewed(repos)) <==> PathsAsAsked(repos)
  {
    var at, previewed := Positions(repos), Previewed(repos);
    PreviewedLineUp(repos);
    PlainWhereAsked(repos, at, previewed);
    DistinctWhereAsked(repos, at, previewed);
    hide PreviewPathPattern, PlainPath, PathAt, LinedUp, Previewed, Positions;
  }

  /** Exactly what is previewed, told of the Project alone. The shorthand previews its one repository
      at the root, and only when no repository opts in as well; otherwise the repositories that opt in
      are previewed, all of them and in order, when there are one to four at different plain paths. */
  lemma WhatIsPreviewed(p: Project)
    ensures Effective(p) != [] <==>
            if p.preview.Some? then |p.repositories| == 1 && p.repositories[0].preview.None?
            else 1 <= |OptedIn(p.repositories)| <= 4 && PathsAsAsked(p.repositories)
    ensures Effective(p) != [] && p.preview.Some? ==>
      var r := p.repositories[0];
      Effective(p) == [RepositoryPreview(r.name, r.url, p.preview.value, "/")]
    ensures Effective(p) != [] && p.preview.None? ==>
      InOrder(p.repositories, Positions(p.repositories), Effective(p))
  {
    PreviewsWhenChecked(p);
    PreviewedIsFiltered(p.repositories);
    PreviewedAreCounted(p.repositories);
    PlacedAsAsked(p.repositories);
    PreviewedInProjectOrder(p.repositories);
    NothingPreviewed();
    hide Previewed, Positions, WellPlaced, PathsAsAsked, InOrder, OptedIn;
    if |p.repositories| == 1 {
      assert p.repositories == [p.repositories[0]];
      PreviewedOne(p.repositories[0]);
    }
  }

  lemma RefusedRepository(p: Project, k: nat)
    requires k < |p.repositories| && p.repositories[k].preview.Some?
    requires var path := EffectivePath(p.repositories[k].preview.value);
      !PreviewPathPattern(path) || exists o :: o in Previewed(p.repositories[..k]) && o.path == path
    ensures !CheckedRules(p)
  {
    hide PreviewPathPattern, WellPlaced, Previewed;
    var r, out, all := p.repositories[k], Previewed(p.repositories[..k]), Previewed(p.repositories);
    assert p.repositories[..k + 1] == p.repositories[..k] + [r];
    PreviewedSnoc(p.repositories[..k], r);
    PreviewedPrefix(p.repositories, k + 1);
    var longer := out + [AsPreviewed(r)];
    assert longer == all[..|longer|];
    WellPlacedSnoc(out, AsPreviewed(r));
    if WellPlaced(all) {
      WellPlacedPrefix(all, |longer|);
    }
  }

  lemma NothingPreviewed()
    ensures Previewed([]) == [] && WellPlaced([])
  {}

  method EffectivePreviews(p: Project) returns (out: seq<RepositoryPreview>)
    ensures out == Effective(p)
  {
    hide PreviewPathPattern, WellPlaced, Previewed;
    PreviewedIsFiltered(p.repositories);
    NothingPreviewed();
    var perRepo := exists r :: r in p.repositories && r.preview.Some?;
    if p.preview.Some? {
      if perRepo || |p.repositories| != 1 {
        return [];
      }
      return [RepositoryPreview(p.repositories[0].name, p.repositories[0].url, p.preview.value, "/")];
    }
    out := [];
    for k := 0 to |p.repositories|
      invariant out == Previewed(p.repositories[..k]) && WellPlaced(out)
    {
      var r := p.repositories[k];
      assert p.repositories[..k + 1] == p.repositories[..k] + [r];
      PreviewedSnoc(p.repositories[..k], r);
      if r.preview.None? {
        continue;
      }
      var path := if r.preview.value.path == "" then "/" else r.preview.value.path;
      if !PreviewPathPattern(path) || exists o :: o in out && o.path == path {
        RefusedRepository(p, k);
        return [];
      }
      WellPlacedSnoc(out, AsPreviewed(r));
      out := out + [RepositoryPreview(r.name, r.url, r.preview.value.contract, path)];
    }
    assert p.repositories[..|p.repositories|] == p.repositories;
    if |out| > MAX_PREVIEW_COMPONENTS {
      return [];
    }
  }

  /** A Project that asks for a preview and passes the checks previews something, against the
      schema exactly when it has a fault the code does not look for. In every other case it
      previews something exactly when the schema allows it. */
  lemma PreviewsWhenTheSchemaAllows(p: Project)
    ensures Effective(p) != [] && !SchemaRules(p) <==> HasPreview(p) && CheckedRules(p) && UncheckedFault(p)
    ensures (Effective(p) != [] <==> HasPreview(p) && SchemaRules(p))
            <==> !(HasPreview(p) && CheckedRules(p) && UncheckedFault(p))
  {
    PreviewsWhenChecked(p);
    EmptyProject(p);
    hide CheckedRules, FieldRules, SchemaKey, HasPreview, Effective;
    if RepeatedName(p) {
      var i, j :| 0 <= i < j < |p.repositories| && p.repositories[i].name == p.repositories[j].name;
      assert !SchemaRules(p);
    }
    if RepeatedURL(p) {
      var i, j :|
        0 <= i < j < |p.repositories| && SchemaKey(p.repositories[i].url) == SchemaKey(p.repositories[j].url);
      assert !SchemaRules(p);
    }
  }

  lemma EmptyProject(p: Project)
    ensures HasPreview(p) && CheckedRules(p) ==> p.repositories != []
  {}

  /** A path one character too long is previewed. */
  lemma OverlongPathIsPreviewed(contract: ProjectPreview)
    ensures var path := "/" + seq(128, _ => 'a');
      var r := ProjectRepository("web", "https://h/o/r", Some(ProjectRepositoryPreview(contract, path)));
      var p := Project([r], None);
      |path| == 129 && Effective(p) != [] && !SchemaRules(p)
  {
    hide Previewed, PreviewPathPattern;
    var path := "/" + seq(128, _ => 'a');
    var r := ProjectRepository("web", "https://h/o/r", Some(ProjectRepositoryPreview(contract, path)));
    PreviewedOne(r);
    OneSegment(seq(128, _ => 'a'));
    assert AsPreviewed(r) in Previewed([r]);
  }

  lemma OneSegment(name: string)
    requires Segment(name)
    ensures PreviewPathPattern("/" + name)
  {
    assert ("/" + name)[1..] == name && '/' !in name;
    SplitWhole(name, '/');
  }

  /** So are two repositories of one URL, which get two components. */
  lemma RepeatedURLIsPreviewed(contract: ProjectPreview)
    ensures var web := ProjectRepository("web", "https://h/o/r", Some(ProjectRepositoryPreview(contract, "/")));
      var api := ProjectRepository("api", "https://h/o/r.git", Some(ProjectRepositoryPreview(contract, "/a")));
      var p := Project([web, api], None);
      |Effective(p)| == 2 && RepeatedURL(p) && !SchemaRules(p)
  {
    hide Previewed, PreviewPathPattern, SchemaKey, FieldRules;
    var web := ProjectRepository("web", "https://h/o/r", Some(ProjectRepositoryPreview(contract, "/")));
    var api := ProjectRepository("api", "https://h/o/r.git", Some(ProjectRepositoryPreview(contract, "/a")));
    var p := Project([web, api], None);
    PreviewedOne(web);
    PreviewedSnoc([web], api);
    assert [web] + [api] == [web, api];
    OneSegment("a");
    assert "/" + "a" == "/a";
    assert PreviewPathPattern("/") by {
      RootPattern();
    }
    assert SchemaKey(p.repositories[0].url) == SchemaKey(p.repositories[1].url) by {
      SameSchemaKey("https://h/o/r");
      assert "https://h/o/r" + ".git" == "https://h/o/r.git";
    }
  }

  lemma RootPattern()
    ensures PreviewPathPattern("/")
  {}

  lemma SameSchemaKey(u: string)
    requires u != "" && u[|u| - 1] != 't'
    ensures SchemaKey(u + ".git") == SchemaKey(u)
  {
    SuffixTrimmed(u, ".git");
    if HasSuffix(u, ".git") {
      LowerCharIsLowerCase();
      MappedSuffix(LowerChar, u);
      assert false;
    }
  }

  /** The one-repository shorthand is that repository previewed at the root, written out or omitted. */
  lemma ShorthandIsRootPreview(name: string, url: string, contract: ProjectPreview, path: string)
    requires path == "" || path == "/"
    ensures Effective(Project([ProjectRepository(name, url, None)], Some(contract)))
            == Effective(Project([ProjectRepository(name, url, Some(ProjectRepositoryPreview(contract, path)))], None))
            == [RepositoryPreview(name, url, contract, "/")]
  {
    hide Previewed, PreviewPathPattern;
    PreviewedOne(ProjectRepository(name, url, None));
    PreviewedOne(ProjectRepository(name, url, Some(ProjectRepositoryPreview(contract, path))));
    RootPattern();
  }

  // ---- the derivation ----

  predicate WantsPreview(s: IntentStatus, pulls: seq<IntentPullRequest>) {
    && (s.phase == InReview || s.phase == Revising
        || (s.phase == Blocked && (s.Resume() == InReview || s.Resume() == Revising)))
    && exists pr :: pr in pulls && pr.state == "open"
  }

  function PullRequestIn(pulls: seq<IntentPullRequest>, url: string): Option<IntentPullRequest> {
    if pulls == [] then None
    else if SameRepositoryURL(pulls[0].repository, url) then Some(pulls[0])
    else PullRequestIn(pulls[1..], url)
  }

  function BaseIn(bases: seq<IntentPreviewBase>, url: string): Option<IntentPreviewBase> {
    if bases == [] then None
    else if SameRepositoryURL(bases[0].repository, url) then Some(bases[0])
    else BaseIn(bases[1..], url)
  }

  /** The revision a repository is shown at, and whether a pull request gave it. */
  function PreviewRevision(pulls: seq<IntentPullRequest>, bases: seq<IntentPreviewBase>, url: string): (string, bool) {
    match PullRequestIn(pulls, url)
    case Some(pr) => (pr.headSHA, true)
    case None =>
      match BaseIn(bases, url)
      case Some(base) => (base.sha, false)
      case None => ("", false)
  }

  /** Position k holds the Intent's first pull request in the repository. */
  ghost predicate FirstPullAt(pulls: seq<IntentPullRequest>, url: string, k: nat) {
    && k < |pulls| && SameRepositoryURL(pulls[k].repository, url)
    && forall j | 0 <= j < k :: !SameRepositoryURL(pulls[j].repository, url)
  }

  ghost predicate FirstBaseAt(bases: seq<IntentPreviewBase>, url: string, k: nat) {
    && k < |bases| && SameRepositoryURL(bases[k].repository, url)
    && forall j | 0 <= j < k :: !SameRepositoryURL(bases[j].repository, url)
  }

  lemma {:induction false} FirstPullRequest(pulls: seq<IntentPullRequest>, url: string)
    ensures match PullRequestIn(pulls, url)
            case None => forall pr | pr in pulls :: !SameRepositoryURL(pr.repository, url)
            case Some(pr) => exists k: nat :: FirstPullAt(pulls, url, k) && pulls[k] == pr
  {
    hide SameRepositoryURL;
    if pulls != [] {
      FirstPullRequest(pulls[1..], url);
      assert pulls == [pulls[0]] + pulls[1..];
      if SameRepositoryURL(pulls[0].repository, url) {
        assert FirstPullAt(pulls, url, 0);
      } else if PullRequestIn(pulls[1..], url).Some? {
        var k: nat :| FirstPullAt(pulls[1..], url, k) && pulls[1..][k] == PullRequestIn(pulls[1..], url).value;
        forall j | 0 <= j < k + 1 ensures !SameRepositoryURL(pulls[j].repository, url) {
          assert j > 0 ==> pulls[j] == pulls[1..][j - 1];
        }
        assert FirstPullAt(pulls, url, k + 1);
      }
    }
  }

  lemma {:induction false} FirstBase(bases: seq<IntentPreviewBase>, url: string)
    ensures match BaseIn(bases, url)
            case None => forall b | b in bases :: !SameRepositoryURL(b.repository, url)
            case Some(b) => exists k: nat :: FirstBaseAt(bases, url, k) && bases[k] == b
  {
    hide SameRepositoryURL;
    if bases != [] {
      FirstBase(bases[1..], url);
      assert bases == [bases[0]] + bases[1..];
      if SameRepositoryURL(bases[0].repository, url) {
        assert FirstBaseAt(bases, url, 0);
      } else if BaseIn(bases[1..], url).Some? {
        var k: nat :| FirstBaseAt(bases[1..], url, k) && bases[1..][k] == BaseIn(bases[1..], url).value;
        forall j | 0 <= j < k + 1 ensures !SameRepositoryURL(bases[j].repository, url) {
          assert j > 0 ==> bases[j] == bases[1..][j - 1];
        }
        assert FirstBaseAt(bases, url, k + 1);
      }
    }
  }

  /** The first pull request in a repository decides, whatever head it has; only without any
      is the first recorded base used, and without a base there is no revision. */
  lemma PullRequestDecides(pulls: seq<IntentPullRequest>, bases: seq<IntentPreviewBase>, url: string)
    ensures var (revision, fromPull) := PreviewRevision(pulls, bases, url);
      && (fromPull <==> exists pr :: pr in pulls && SameRepositoryURL(pr.repository, url))
      && (fromPull ==> exists k: nat :: FirstPullAt(pulls, url, k) && pulls[k].headSHA == revision)
      && (!fromPull ==>
            if exists b :: b in bases && SameRepositoryURL(b.repository, url)
            then exists k: nat :: FirstBaseAt(bases, url, k) && bases[k].sha == revision
            else revision == "")
  {
    hide SameRepositoryURL, PullRequestIn, BaseIn;
    FirstPullRequest(pulls, url);
    FirstBase(bases, url);
  }

  function ComponentOf(rp: RepositoryPreview, revision: string): PreviewComponent {
    PreviewComponent(
      rp.name, rp.preview.imageRepository, revision, rp.preview.port, rp.preview.readinessPath,
      if rp.path == "/" then "" else rp.path)
  }

  ghost predicate Derivable(
    p: Project, s: IntentStatus, pulls: seq<IntentPullRequest>, bases: seq<IntentPreviewBase>)
  {
    var previews := Effective(p);
    && WantsPreview(s, pulls)
    && (forall rp | rp in previews :: RevisionPattern(PreviewRevision(pulls, bases, rp.url).0))
    && (exists rp :: rp in previews && PreviewRevision(pulls, bases, rp.url).1)
  }

  ghost function Components(
    previews: seq<RepositoryPreview>, pulls: seq<IntentPullRequest>, bases: seq<IntentPreviewBase>)
    : (cs: seq<PreviewComponent>)
    ensures |cs| == |previews|
  {
    seq(|previews|, i requires 0 <= i < |previews| =>
      ComponentOf(previews[i], PreviewRevision(pulls, bases, previews[i].url).0))
  }

  ghost function Desired(
    p: Project, s: IntentStatus, pulls: seq<IntentPullRequest>, bases: seq<IntentPreviewBase>)
    : Option<seq<PreviewComponent>>
  {
    if Derivable(p, s, pulls, bases) then Some(Components(Effective(p), pulls, bases)) else None
  }

  method DesiredPreviewComponents(p: Project, intent: Intent) returns (result: Option<seq<PreviewComponent>>)
    ensures result == Desired(p, intent.Status(), intent.pullRequests, intent.previewBases)
  {
    hide PreviewRevision, RevisionPattern, SameRepositoryURL, Effective, BlockedFrom;
    var pulls, bases := intent.pullRequests, intent.previewBases;
    var blockedFrom := intent.IntentBlockedFrom();
    var phase := intent.phase;
    var inReview :=
      || phase == InReview || phase == Revising
      || (phase == Blocked && (blockedFrom == InReview || blockedFrom == Revising));
    if !inReview || !exists pr :: pr in pulls && pr.state == "open" {
      return None;
    }
    assert WantsPreview(intent.Status(), pulls);
    var previews := EffectivePreviews(p);
    if |previews| == 0 {
      return None;
    }
    var out := [];
    var fromPR := false;
    for i := 0 to |previews|
      invariant out == Components(previews[..i], pulls, bases)
      invariant forall rp | rp in previews[..i] :: RevisionPattern(PreviewRevision(pulls, bases, rp.url).0)
      invariant fromPR <==> exists rp :: rp in previews[..i] && PreviewRevision(pulls, bases, rp.url).1
    {
      var rp := previews[i];
      var (revision, pr) := PreviewRevision(pulls, bases, rp.url);
      if !RevisionPattern(revision) {
        assert rp in previews;
        return None;
      }
      fromPR := fromPR || pr;
      var path := rp.path;
      if path == "/" {
        path := "";
      }
      out := out + [PreviewComponent(
        rp.name, rp.preview.imageRepository, revision, rp.preview.port, rp.preview.readinessPath, path)];
      assert previews[..i + 1] == previews[..i] + [rp];
    }
    assert previews[..|previews|] == previews;
    if !fromPR {
      return None;
    }
    result := Some(out);
  }

  /** A full commit SHA: 40 hexadecimal digits in lower case. */
  predicate FullSHA(s: string) {
    |s| == 40 && forall i | 0 <= i < 40 :: '0' <= s[i] <= '9' || 'a' <= s[i] <= 'f'
  }

  lemma RevisionIsFullSHA(s: string)
    ensures RevisionPattern(s) <==> FullSHA(s)
  {
    if RevisionPattern(s) {
      assert forall i | 0 <= i < 40 :: s[i] in s;
    }
  }

  ghost predicate HasPull(pulls: seq<IntentPullRequest>, url: string) {
    exists pr :: pr in pulls && SameRepositoryURL(pr.repository, url)
  }

  /** A full SHA is recorded for the repository: by its first pull request, or without one by its
      first base. */
  ghost predicate RevisionRecorded(pulls: seq<IntentPullRequest>, bases: seq<IntentPreviewBase>, url: string) {
    if HasPull(pulls, url) then exists k: nat :: FirstPullAt(pulls, url, k) && FullSHA(pulls[k].headSHA)
    else exists k: nat :: FirstBaseAt(bases, url, k) && FullSHA(bases[k].sha)
  }

  lemma RecordedRevision(pulls: seq<IntentPullRequest>, bases: seq<IntentPreviewBase>, url: string)
    ensures RevisionPattern(PreviewRevision(pulls, bases, url).0) <==> RevisionRecorded(pulls, bases, url)
    ensures PreviewRevision(pulls, bases, url).1 <==> HasPull(pulls, url)
  {
    PullRequestDecides(pulls, bases, url);
    RevisionIsFullSHA(PreviewRevision(pulls, bases, url).0);
    hide PreviewRevision, RevisionPattern, SameRepositoryURL, FullSHA;
    assert !FullSHA("") by {
      EmptyIsNoSHA();
    }
    OneFirstPull(pulls, url);
    OneFirstBase(bases, url);
  }

  lemma EmptyIsNoSHA()
    ensures !FullSHA("")
  {}

  lemma OneFirstPull(pulls: seq<IntentPullRequest>, url: string)
    ensures forall k: nat, l: nat | FirstPullAt(pulls, url, k) && FirstPullAt(pulls, url, l) :: k == l
  {
    hide SameRepositoryURL;
  }

  lemma OneFirstBase(bases: seq<IntentPreviewBase>, url: string)
    ensures forall k: nat, l: nat | FirstBaseAt(bases, url, k) && FirstBaseAt(bases, url, l) :: k == l
    ensures forall k: nat | FirstBaseAt(bases, url, k) :: exists b :: b in bases && SameRepositoryURL(b.repository, url)
  {
    hide SameRepositoryURL;
    forall k: nat | FirstBaseAt(bases, url, k) ensures exists b :: b in bases && SameRepositoryURL(b.repository, url) {
      assert bases[k] in bases;
    }
  }

  /** The Intent is in review or being revised, or was when it was blocked. */
  predicate Reviewed(s: IntentStatus) {
    || s.phase == InReview || s.phase == Revising
    || (s.phase == Blocked && |s.log| >= 2
        && (s.log[|s.log| - 2].phase == InReview || s.log[|s.log| - 2].phase == Revising))
  }

  /** Exactly when a reachable Intent has a Preview, told of what is recorded. */
  lemma WhenAListIsDerived(
    calls: seq<Call>, p: Project, pulls: seq<IntentPullRequest>, bases: seq<IntentPreviewBase>)
    ensures Desired(p, Run(calls), pulls, bases).Some? <==>
            && Reviewed(Run(calls))
            && (exists pr :: pr in pulls && pr.state == "open")
            && Effective(p) != []
            && (forall rp | rp in Effective(p) :: RevisionRecorded(pulls, bases, rp.url))
            && (exists rp :: rp in Effective(p) && HasPull(pulls, rp.url))
  {
    hide *;
    WantedWhenReviewed(calls, pulls);
    DesiredWhenRecorded(p, Run(calls), pulls, bases);
  }

  lemma WantedWhenReviewed(calls: seq<Call>, pulls: seq<IntentPullRequest>)
    ensures WantsPreview(Run(calls), pulls) <==> Reviewed(Run(calls)) && exists pr :: pr in pulls && pr.state == "open"
  {
    var s := Run(calls);
    RunIsFaithful(calls);
    if s.phase == Blocked {
      BlockedFromIsThePhaseBefore(s);
    }
    hide Run, BlockedFrom, Newest;
  }

  lemma DesiredWhenRecorded(
    p: Project, s: IntentStatus, pulls: seq<IntentPullRequest>, bases: seq<IntentPreviewBase>)
    ensures Desired(p, s, pulls, bases).Some? <==>
            && WantsPreview(s, pulls) && Effective(p) != []
            && (forall rp | rp in Effective(p) :: RevisionRecorded(pulls, bases, rp.url))
            && (exists rp :: rp in Effective(p) && HasPull(pulls, rp.url))
  {
    hide Effective, PreviewRevision, RevisionPattern, RevisionRecorded, HasPull, WantsPreview, Components;
    forall rp | rp in Effective(p)
      ensures RevisionPattern(PreviewRevision(pulls, bases, rp.url).0) <==> RevisionRecorded(pulls, bases, rp.url)
      ensures PreviewRevision(pulls, bases, rp.url).1 <==> HasPull(pulls, rp.url)
    {
      RecordedRevision(pulls, bases, rp.url);
    }
  }

  function ComponentPath(c: PreviewComponent): string {
    if c.path == "" then "/" else c.path
  }

  function ComponentPaths(cs: seq<PreviewComponent>): (paths: seq<string>)
    ensures |paths| == |cs|
  {
    seq(|cs|, i requires 0 <= i < |cs| => ComponentPath(cs[i]))
  }

  /** The component runs the repository's own contract, at its path and at the given revision. */
  predicate Serves(c: PreviewComponent, rp: RepositoryPreview, revision: string) {
    && c.name == rp.name && c.imageRepository == rp.preview.imageRepository
    && c.port == rp.preview.port && c.readinessPath == rp.preview.readinessPath
    && ComponentPath(c) == rp.path && c.revision == revision
  }

  lemma DerivedComponent(
    p: Project, s: IntentStatus, pulls: seq<IntentPullRequest>, bases: seq<IntentPreviewBase>,
    cs: seq<PreviewComponent>, i: nat)
    requires Desired(p, s, pulls, bases) == Some(cs) && i < |cs|
    ensures |cs| == |Effective(p)|
    ensures RevisionPattern(cs[i].revision) && cs[i].path != "/"
    ensures Serves(cs[i], Effective(p)[i], PreviewRevision(pulls, bases, Effective(p)[i].url).0)
    ensures Routing.Trimmed(ComponentPath(cs[i])) == cs[i].path
  {
    hide PreviewRevision, RevisionPattern, SameRepositoryURL, WantsPreview, PreviewPathPattern, TrimRight;
    PreviewsWhenChecked(p);
    var previews := Effective(p);
    hide Effective;
    assert previews[i] in previews;
    CanonicalPath(previews[i].path);
  }

  lemma SomeComponentIsFromAPullRequest(
    p: Project, s: IntentStatus, pulls: seq<IntentPullRequest>, bases: seq<IntentPreviewBase>,
    cs: seq<PreviewComponent>)
    returns (i: nat, pr: IntentPullRequest)
    requires Desired(p, s, pulls, bases) == Some(cs)
    ensures i < |cs| == |Effective(p)| && pr in pulls
    ensures SameRepositoryURL(pr.repository, Effective(p)[i].url) && pr.headSHA == cs[i].revision
  {
    hide Effective, RevisionPattern, SameRepositoryURL, WantsPreview;
    var previews := Effective(p);
    var rp :| rp in previews && PreviewRevision(pulls, bases, rp.url).1;
    i :| 0 <= i < |previews| && previews[i] == rp;
    PullRequestDecides(pulls, bases, rp.url);
    var k: nat :| FirstPullAt(pulls, rp.url, k) && pulls[k].headSHA == PreviewRevision(pulls, bases, rp.url).0;
    pr := pulls[k];
  }

  /** Components are named as their repositories are, in order. */
  lemma DerivedNamesAreDistinct(
    p: Project, s: IntentStatus, pulls: seq<IntentPullRequest>, bases: seq<IntentPreviewBase>,
    cs: seq<PreviewComponent>, i: nat, j: nat)
    requires Desired(p, s, pulls, bases) == Some(cs) && !RepeatedName(p) && i < j < |cs|
    ensures cs[i].name != cs[j].name
  {
    DerivedComponent(p, s, pulls, bases, cs, i);
    DerivedComponent(p, s, pulls, bases, cs, j);
    PreviewedInProjectOrder(p.repositories);
    hide Desired, PreviewRevision, RevisionPattern, SameRepositoryURL, Previewed, Positions, CheckedRules;
    var at := Positions(p.repositories);
    assert p.preview.None? ==>
      PreviewOf(p.repositories[at[i]], Effective(p)[i]) && PreviewOf(p.repositories[at[j]], Effective(p)[j]);
    assert at[i] < at[j] && p.repositories[at[i]].name != p.repositories[at[j]].name;
  }

  /** Everything the derivation promises of a list it returns. */
  lemma DerivedComponents(
    p: Project, s: IntentStatus, pulls: seq<IntentPullRequest>, bases: seq<IntentPreviewBase>,
    cs: seq<PreviewComponent>)
    requires Desired(p, s, pulls, bases) == Some(cs)
    ensures 1 <= |cs| == |Effective(p)| <= MAX_PREVIEW_COMPONENTS
    ensures forall i | 0 <= i < |cs| :: RevisionPattern(cs[i].revision) && cs[i].path != "/"
    ensures forall i | 0 <= i < |cs| ::
      Serves(cs[i], Effective(p)[i], PreviewRevision(pulls, bases, Effective(p)[i].url).0)
    ensures exists i, pr ::
      && 0 <= i < |cs| && pr in pulls
      && SameRepositoryURL(pr.repository, Effective(p)[i].url) && pr.headSHA == cs[i].revision
    ensures forall i, j | 0 <= i < j < |cs| :: ComponentPath(cs[i]) != ComponentPath(cs[j])
    ensures Routing.DistinctOnceTrimmed(ComponentPaths(cs))
    ensures !RepeatedName(p) ==> forall i, j | 0 <= i < j < |cs| :: cs[i].name != cs[j].name
  {
    PreviewsWhenChecked(p);
    hide Desired, PreviewRevision, RevisionPattern, SameRepositoryURL, Effective, TrimRight;
    hide PreviewPathPattern, Routing.Trimmed;
    var k, pr := SomeComponentIsFromAPullRequest(p, s, pulls, bases, cs);
    forall i | 0 <= i < |cs|
      ensures RevisionPattern(cs[i].revision) && cs[i].path != "/"
      ensures Serves(cs[i], Effective(p)[i], PreviewRevision(pulls, bases, Effective(p)[i].url).0)
      ensures Routing.Trimmed(ComponentPath(cs[i])) == cs[i].path
    {
      DerivedComponent(p, s, pulls, bases, cs, i);
    }
    forall i, j | 0 <= i < j < |cs| ensures cs[i].path != cs[j].path {
      assert Effective(p)[i].path != Effective(p)[j].path;
    }
    forall i, j | 0 <= i < j < |cs| && !RepeatedName(p) ensures cs[i].name != cs[j].name {
      DerivedNamesAreDistinct(p, s, pulls, bases, cs, i, j);
    }
  }

  /** A well-formed preview path carries no slash to trim but the root's. */
  lemma CanonicalPath(path: string)
    requires PreviewPathPattern(path)
    ensures path != "" && Routing.Trimmed(path) == if path == "/" then "" else path
  {
    TrimRightDrops(path, '/');
    if path == "/" {
      assert path[..0] == "";
    } else {
      var parts := Split(path[1..], '/');
      assert parts[|parts| - 1] in parts;
      if path[|path| - 1] == '/' {
        LastElementEmpty(path[1..], '/');
        assert false;
      }
    }
  }

  lemma {:induction false} LastElementEmpty(s: string, sep: char)
    requires s == "" || s[|s| - 1] == sep
    ensures var parts := Split(s, sep); parts[|parts| - 1] == "" && (s != "" ==> |parts| >= 2)
  {
    if s != "" {
      LastElementEmpty(s[1..], sep);
    }
  }

  lemma RootMatches(path: string)
    requires path == "" || "/" <= path
    ensures Routing.ElementMatch("/", path)
  {}

  /** Routing over derived components is unambiguous: at most one of the
      matches is the longest, and a component at the root serves every request. */
  lemma DerivedRoutingIsUnambiguous(
    p: Project, s: IntentStatus, pulls: seq<IntentPullRequest>, bases: seq<IntentPreviewBase>,
    cs: seq<PreviewComponent>, path: string, r: int)
    requires Desired(p, s, pulls, bases) == Some(cs)
    requires Routing.IsRoute(ComponentPaths(cs), path, r)
    ensures forall i | 0 <= i < |cs| && i != r && Routing.PreviewPathMatches(ComponentPath(cs[i]), path) ::
      0 <= r < |cs| && Routing.Elements(ComponentPath(cs[i])) < Routing.Elements(ComponentPath(cs[r]))
    ensures r == -1 && (path == "" || "/" <= path) ==> forall c | c in cs :: ComponentPath(c) != "/"
  {
    hide Desired, SameRepositoryURL, Split, Routing.PreviewPathMatches, Routing.Elements;
    DerivedComponents(p, s, pulls, bases, cs);
    var paths := ComponentPaths(cs);
    forall i | 0 <= i < |cs| && Routing.PreviewPathMatches(ComponentPath(cs[i]), path)
      ensures 0 <= r < |cs| && (i != r ==> Routing.Elements(paths[i]) < Routing.Elements(paths[r]))
    {
      Routing.MatchIsElementwise(paths[i], path);
      assert Routing.ElementMatch(paths[i], path);
      assert Routing.Yields(paths, i, r);
      Routing.ElementsAreFaithful(paths[i], paths[r]);
    }
    if r == -1 && (path == "" || "/" <= path) {
      forall c | c in cs ensures ComponentPath(c) != "/" {
        var i :| 0 <= i < |cs| && cs[i] == c;
        assert paths[i] == ComponentPath(c);
        if ComponentPath(c) == "/" {
          RootMatches(path);
        }
      }
    }
  }

  // ---- blocking ----

  lemma BlockAndResume(calls: seq<Call>, blockedAt: Time)
    requires !IntentTerminal(Run(calls).phase)
    ensures var s := Run(calls);
      var blocked := Advance(s, Blocked, blockedAt);
      if s.phase == Unset then blocked == s && s.Resume() == Unset
      else
        && blocked.phase == Blocked && Resumable(blocked.Resume())
        && (s.phase != Blocked ==> blocked.Resume() == s.phase)
  {
    hide Newest, LatestUnblocked, Run;
    var s := Run(calls);
    var blocked := Advance(s, Blocked, blockedAt);
    RunIsFaithful(calls);
    AdvanceKeepsFaithful(s, Blocked, blockedAt);
    if s.phase != Unset {
      BlockedFromIsThePhaseBefore(blocked);
      assert s.phase != Blocked ==> blocked.log[|blocked.log| - 2] == s.log[|s.log| - 1];
    }
  }

  /** Blocking a reachable Intent and resuming it changes nothing a preview shows. */
  lemma BlockingIsTransparent(
    calls: seq<Call>, p: Project, pulls: seq<IntentPullRequest>, bases: seq<IntentPreviewBase>,
    blockedAt: Time, resumedAt: Time)
    requires !IntentTerminal(Run(calls).phase)
    ensures var s := Run(calls);
      var blocked := Advance(s, Blocked, blockedAt);
      var resumed := Advance(blocked, blocked.Resume(), resumedAt);
      && (s.phase != Unset ==> blocked.phase == Blocked)
      && (s.phase != Blocked ==> resumed.phase == s.phase)
      && WantsPreview(s, pulls) == WantsPreview(blocked, pulls) == WantsPreview(resumed, pulls)
      && Desired(p, s, pulls, bases) == Desired(p, blocked, pulls, bases) == Desired(p, resumed, pulls, bases)
  {
    hide Effective, PreviewRevision, RevisionPattern, Components, BlockedFrom, Newest, Run;
    BlockAndResume(calls, blockedAt);
  }
}
