/** The deterministic names of Intents, of their runs, and of the Repositories a
    run owns: what each name can be read back as, and how long it gets. */
module RunNames {
  import opened Text

  const MAX_PROJECT_NAME_LENGTH: nat := 25
  const MAX_REPOSITORY_KEY_LENGTH: nat := 16
  const MAX_INTENT_ISSUE_NUMBER: nat := 9999999
  const MAX_INTENT_ROUND: nat := 999
  const MAX_INTENT_RUN_ATTEMPT: nat := 16
  const LABEL_VALUE_MAX_LENGTH: nat := 63

  datatype IntentStage = Plan | Build | Revise | Unknown(stage: string)

  function IntentName(project: string, issue: nat): string {
    project + "-" + Decimal(issue)
  }

  function IntentRunName(intent: string, stage: IntentStage, round: nat, repoKey: string, attempt: nat): string {
    match stage
    case Plan => intent + "-plan-r" + Decimal(round) + "-a" + Decimal(attempt)
    case Build => intent + "-bld-r" + Decimal(round) + "-" + repoKey + "-a" + Decimal(attempt)
    case Revise => intent + "-rev" + Decimal(round) + "-" + repoKey + "-a" + Decimal(attempt)
    case Unknown(_) => ""
  }

  /** The Repository a plan run owns for one of its extra trees. */
  function IntentRunTreeRepositoryName(run: string, key: string): string {
    run + "-src-" + key
  }

  /** The run's own Repository. */
  function OwnRepositoryName(run: string): string {
    run + "-src"
  }

  /** What identifies a run within its Intent: a plan run has no repository key. */
  datatype Run =
    | PlanRun(round: nat, attempt: nat)
    | BuildRun(round: nat, key: string, attempt: nat)
    | ReviseRun(round: nat, key: string, attempt: nat)

  function RunName(intent: string, run: Run): string {
    match run
    case PlanRun(round, attempt) => IntentRunName(intent, Plan, round, "", attempt)
    case BuildRun(round, key, attempt) => IntentRunName(intent, Build, round, key, attempt)
    case ReviseRun(round, key, attempt) => IntentRunName(intent, Revise, round, key, attempt)
  }

  /** The documented forms, and none for an unknown stage. */
  lemma NamesAsDocumented(intent: string, stage: IntentStage, round: nat, key: string, attempt: nat)
    ensures RunName("p-7", PlanRun(2, 3)) == "p-7-plan-r2-a3"
    ensures RunName("p-7", BuildRun(2, "web", 3)) == "p-7-bld-r2-web-a3"
    ensures RunName("p-7", ReviseRun(2, "web", 3)) == "p-7-rev2-web-a3"
    ensures OwnRepositoryName("p-7-plan-r2-a3") == "p-7-plan-r2-a3-src"
    ensures IntentRunTreeRepositoryName("p-7-plan-r2-a3", "web") == "p-7-plan-r2-a3-src-web"
    ensures IntentRunName(intent, stage, round, key, attempt) == "" <==> stage.Unknown?
  {}

  // ---- reading a name back ----

  function LeadingDigits(s: string): (n: nat)
    ensures n <= |s|
  {
    if s == "" || !IsDigit(s[0]) then 0 else LeadingDigits(s[1..]) + 1
  }

  /** The position after the last '-', 0 when there is none. */
  function AfterLastDash(s: string): (n: nat)
    ensures n <= |s| && (n > 0 ==> s[n - 1] == '-')
  {
    if s == "" then 0
    else if s[|s| - 1] == '-' then |s|
    else AfterLastDash(s[..|s| - 1])
  }

  function ParseNumber(s: string): Option<nat> {
    if Canonical(s) then Some(Value(s)) else None
  }

  /** Reads "a<attempt>". */
  function ParseAttempt(s: string): Option<nat> {
    if s == "" || s[0] != 'a' then None else ParseNumber(s[1..])
  }

  /** Reads "<round>-a<attempt>" or "<round>-<key>-a<attempt>": the round ends at
      the first '-', the attempt starts after the last. */
  function ParseTail(s: string): Option<(nat, string, nat)> {
    var d, e := LeadingDigits(s), AfterLastDash(s);
    if e == 0 || d >= e || (d < e - 1 && s[d] != '-') then None
    else
      match (ParseNumber(s[..d]), ParseAttempt(s[e..]))
      case (Some(round), Some(attempt)) => Some((round, s[d..e - 1], attempt))
      case _ => None
  }

  lemma NumberOfParse(s: string)
    ensures ParseNumber(s).Some? ==> s == Decimal(ParseNumber(s).value)
    ensures ParseAttempt(s).Some? ==> s == "a" + Decimal(ParseAttempt(s).value)
  {
    hide Value, Decimal;
    if Canonical(s) {
      DecimalValue(s);
    }
    if s != "" && Canonical(s[1..]) {
      DecimalValue(s[1..]);
      assert s == [s[0]] + s[1..];
    }
  }

  lemma TailOfParse(s: string)
    requires ParseTail(s).Some?
    ensures var (round, middle, attempt) := ParseTail(s).value;
      s == Decimal(round) + middle + "-a" + Decimal(attempt) && (middle == "" || middle[0] == '-')
  {
    hide LeadingDigits, AfterLastDash, ParseNumber, ParseAttempt, Decimal;
    var d, e := LeadingDigits(s), AfterLastDash(s);
    var (round, middle, attempt) := ParseTail(s).value;
    NumberOfParse(s[..d]);
    NumberOfParse(s[e..]);
    assert s == s[..d] + s[d..e - 1] + "-" + s[e..];
    assert s == Decimal(round) + s[d..e - 1] + ("-" + ("a" + Decimal(attempt)));
    assert "-" + ("a" + Decimal(attempt)) == "-a" + Decimal(attempt);
  }

  function ParsePlan(s: string): Option<Run> {
    match ParseTail(s)
    case Some((round, middle, attempt)) => if middle == "" then Some(PlanRun(round, attempt)) else None
    case None => None
  }

  function KeyedRun(stage: IntentStage, round: nat, key: string, attempt: nat): Run {
    if stage == Build then BuildRun(round, key, attempt) else ReviseRun(round, key, attempt)
  }

  function ParseKeyed(s: string, stage: IntentStage): Option<Run> {
    match ParseTail(s)
    case Some((round, middle, attempt)) =>
      if middle == "" then None else Some(KeyedRun(stage, round, middle[1..], attempt))
    case None => None
  }

  /** A run name of the Intent, read back. A key may hold anything, "-a1" included. */
  function ParseRun(intent: string, name: string): Option<Run> {
    if intent + "-plan-r" <= name then ParsePlan(name[|intent| + 7..])
    else if intent + "-bld-r" <= name then ParseKeyed(name[|intent| + 6..], Build)
    else if intent + "-rev" <= name then ParseKeyed(name[|intent| + 4..], Revise)
    else None
  }

  lemma {:induction false} LeadingDigitsOf(s: string, t: string)
    requires AllDigits(s) && (t == "" || !IsDigit(t[0]))
    ensures LeadingDigits(s + t) == |s|
  {
    if s == "" {
      assert s + t == t;
    } else {
      LeadingDigitsOf(s[1..], t);
      assert (s + t)[1..] == s[1..] + t;
    }
  }

  lemma {:induction false} AfterLastDashOf(s: string, t: string)
    requires forall i | 0 <= i < |t| :: t[i] != '-'
    ensures AfterLastDash(s + "-" + t) == |s| + 1
  {
    var u := s + "-" + t;
    if t != "" {
      AfterLastDashOf(s, t[..|t| - 1]);
      assert u[..|u| - 1] == s + "-" + t[..|t| - 1];
    }
  }

  lemma ParseNumberOf(n: nat)
    ensures ParseNumber(Decimal(n)) == Some(n)
    ensures ParseAttempt("a" + Decimal(n)) == Some(n)
  {
    hide Decimal, Value;
    ValueDecimal(n);
    assert ("a" + Decimal(n))[1..] == Decimal(n);
  }

  lemma Slices(r: string, middle: string, t: string)
    ensures var s := r + middle + "-" + t; var d, e := |r|, |r + middle|;
      s[..d] == r && s[d..e] == middle && s[e + 1..] == t && (middle != "" ==> s[d] == middle[0])
  {}

  lemma TailMarks(r: nat, middle: string, a: nat)
    requires middle == "" || middle[0] == '-'
    ensures var s := Decimal(r) + middle + "-" + ("a" + Decimal(a));
      LeadingDigits(s) == |Decimal(r)| && AfterLastDash(s) == |Decimal(r) + middle| + 1
  {
    hide LeadingDigits, AfterLastDash, Decimal;
    var tail := "a" + Decimal(a);
    assert Decimal(r) + middle + "-" + tail == Decimal(r) + (middle + "-" + tail);
    LeadingDigitsOf(Decimal(r), middle + "-" + tail);
    AfterLastDashOf(Decimal(r) + middle, tail);
  }

  lemma ParseTailOf(round: nat, middle: string, attempt: nat)
    requires middle == "" || middle[0] == '-'
    ensures ParseTail(Decimal(round) + middle + "-a" + Decimal(attempt)) == Some((round, middle, attempt))
  {
    hide LeadingDigits, AfterLastDash, ParseNumber, ParseAttempt, Decimal, AllDigits;
    var tail := "a" + Decimal(attempt);
    var s := Decimal(round) + middle + "-" + tail;
    assert Decimal(round) + middle + "-a" + Decimal(attempt) == s by {
      assert "-a" + Decimal(attempt) == "-" + tail;
    }
    TailMarks(round, middle, attempt);
    ParseNumberOf(round);
    ParseNumberOf(attempt);
    Slices(Decimal(round), middle, tail);
  }

  /** The parser is the inverse of IntentRunName, both ways, for every Intent and every key. */
  lemma RunNameRoundTrip(intent: string, name: string, run: Run)
    ensures ParseRun(intent, name) == Some(run) <==> name == RunName(intent, run)
  {
    if name == RunName(intent, run) {
      ParseOfName(intent, run);
    } else if ParseRun(intent, name) == Some(run) {
      NameOfParse(intent, name);
    }
  }

  lemma ParseOfName(intent: string, run: Run)
    ensures ParseRun(intent, RunName(intent, run)) == Some(run)
  {
    hide ParseTail, Decimal;
    var name := RunName(intent, run);
    var r, a := Decimal(run.round), Decimal(run.attempt);
    match run
    case PlanRun(_, _) =>
      ParseTailOf(run.round, "", run.attempt);
      assert name == intent + "-plan-r" + (r + "" + "-a" + a);
      assert name[|intent| + 7..] == r + "" + "-a" + a;
    case BuildRun(_, key, _) =>
      ParseTailOf(run.round, "-" + key, run.attempt);
      assert name == intent + "-bld-r" + (r + ("-" + key) + "-a" + a);
      assert name[|intent| + 6..] == r + ("-" + key) + "-a" + a;
      assert name[|intent| + 1] == 'b';
      assert ("-" + key)[1..] == key;
    case ReviseRun(_, key, _) =>
      ParseTailOf(run.round, "-" + key, run.attempt);
      assert name == intent + "-rev" + (r + ("-" + key) + "-a" + a);
      assert name[|intent| + 4..] == r + ("-" + key) + "-a" + a;
      assert name[|intent| + 1] == 'r';
      assert ("-" + key)[1..] == key;
  }

  lemma KeyedTail(s: string, stage: IntentStage) returns (round: nat, key: string, attempt: nat)
    requires ParseKeyed(s, stage).Some?
    ensures ParseKeyed(s, stage).value == KeyedRun(stage, round, key, attempt)
    ensures s == Decimal(round) + "-" + key + "-a" + Decimal(attempt)
  {
    hide ParseTail, Decimal;
    TailOfParse(s);
    var (n, middle, m) := ParseTail(s).value;
    round, key, attempt := n, middle[1..], m;
    assert middle == "-" + key;
    assert Decimal(n) + ("-" + key) == Decimal(n) + "-" + key;
  }

  lemma KeyedName(intent: string, stage: IntentStage, prefix: string, rest: string)
    requires stage == Build || stage == Revise
    requires prefix == intent + (if stage == Build then "-bld-r" else "-rev")
    requires ParseKeyed(rest, stage).Some?
    ensures prefix + rest == RunName(intent, ParseKeyed(rest, stage).value)
  {
    hide ParseTail, Decimal, ParseKeyed, AllDigits;
    var round, key, attempt := KeyedTail(rest, stage);
    assert prefix + rest == prefix + Decimal(round) + "-" + key + "-a" + Decimal(attempt);
  }

  lemma PlanName(intent: string, rest: string)
    requires ParsePlan(rest).Some?
    ensures intent + "-plan-r" + rest == RunName(intent, ParsePlan(rest).value)
  {
    hide ParseTail, Decimal, AllDigits;
    TailOfParse(rest);
    var (round, middle, attempt) := ParseTail(rest).value;
    assert intent + "-plan-r" + rest == intent + "-plan-r" + Decimal(round) + "-a" + Decimal(attempt);
  }

  lemma NameOfParse(intent: string, name: string)
    requires ParseRun(intent, name).Some?
    ensures name == RunName(intent, ParseRun(intent, name).value)
  {
    hide ParsePlan, ParseKeyed, RunName;
    var p, b, r := intent + "-plan-r", intent + "-bld-r", intent + "-rev";
    if p <= name {
      PlanName(intent, name[|p|..]);
    } else if b <= name {
      KeyedName(intent, Build, b, name[|b|..]);
    } else {
      KeyedName(intent, Revise, r, name[|r|..]);
    }
  }

  /** Within one Intent two runs share a name exactly when they are the same run. */
  lemma RunNamesAreDistinct(intent: string, a: Run, b: Run)
    ensures RunName(intent, a) == RunName(intent, b) <==> a == b
  {
    ParseOfName(intent, a);
    ParseOfName(intent, b);
  }

  lemma IntentNamesAreDistinct(project: string, issue: nat, project': string, issue': nat)
    ensures IntentName(project, issue) == IntentName(project', issue') <==> project == project' && issue == issue'
  {
    var d, d' := Decimal(issue), Decimal(issue');
    var n, n' := IntentName(project, issue), IntentName(project', issue');
    AfterLastDashOf(project, d);
    AfterLastDashOf(project', d');
    if n == n' {
      assert project == n[..AfterLastDash(n) - 1] == project';
      assert d == n[AfterLastDash(n)..] == d';
      DecimalInjective(issue, issue');
    }
  }

  // ---- the name budget ----

  predicate InBudget(project: string, issue: nat, run: Run) {
    && 1 <= |project| <= MAX_PROJECT_NAME_LENGTH
    && 1 <= issue <= MAX_INTENT_ISSUE_NUMBER
    && 1 <= run.round <= MAX_INTENT_ROUND && 1 <= run.attempt <= MAX_INTENT_RUN_ATTEMPT
    && (!run.PlanRun? ==> 1 <= |run.key| <= MAX_REPOSITORY_KEY_LENGTH)
  }

  /** Every name fits a label value, and only a build run with every part at full width fills it. */
  lemma NamesFitTheBudget(project: string, issue: nat, run: Run)
    requires InBudget(project, issue, run)
    ensures |IntentName(project, issue)| <= 33
    ensures |RunName(IntentName(project, issue), run)| <= LABEL_VALUE_MAX_LENGTH
    ensures |RunName(IntentName(project, issue), run)| == LABEL_VALUE_MAX_LENGTH <==>
            && run.BuildRun? && |run.key| == MAX_REPOSITORY_KEY_LENGTH
            && |project| == MAX_PROJECT_NAME_LENGTH && issue >= 1000000 && run.round >= 100 && run.attempt >= 10
  {
    Widths();
    DecimalWidth(issue, 7);
    DecimalWidth(issue, 6);
    DecimalWidth(run.round, 3);
    DecimalWidth(run.round, 2);
    DecimalWidth(run.attempt, 2);
    DecimalWidth(run.attempt, 1);
  }

  // ---- the Repositories of runs ----

  lemma DigitsEnd(m: nat, t: string, n: nat, u: string)
    requires t != "" && !IsDigit(t[0]) && u != "" && !IsDigit(u[0])
    requires Decimal(m) + t == Decimal(n) + u
    ensures m == n && t == u
  {
    var s := Decimal(m) + t;
    LeadingDigitsOf(Decimal(m), t);
    LeadingDigitsOf(Decimal(n), u);
    assert Decimal(m) == s[..LeadingDigits(s)] == Decimal(n);
    assert t == s[LeadingDigits(s)..] == u;
    DecimalInjective(m, n);
  }

  /** Within one Intent a tree's Repository is no run's own, and no other tree's. */
  lemma TreeNamesAreDistinct(intent: string, plan: Run, key: string, run: Run, key': string)
    requires plan.PlanRun?
    ensures IntentRunTreeRepositoryName(RunName(intent, plan), key) != OwnRepositoryName(RunName(intent, run))
    ensures run.PlanRun? ==>
              (IntentRunTreeRepositoryName(RunName(intent, plan), key)
               == IntentRunTreeRepositoryName(RunName(intent, run), key')
               <==> plan == run && key == key')
  {
    hide Decimal, AllDigits;
    var r, a, r', a' := Decimal(plan.round), Decimal(plan.attempt), Decimal(run.round), Decimal(run.attempt);
    var tree := IntentRunTreeRepositoryName(RunName(intent, plan), key);
    var rest := tree[|intent|..];
    assert rest == "-plan-r" + (r + ("-a" + (a + ("-src-" + key))));
    var own := OwnRepositoryName(RunName(intent, run));
    if run.PlanRun? {
      var tree' := IntentRunTreeRepositoryName(RunName(intent, run), key');
      assert own[|intent|..] == "-plan-r" + (r' + ("-a" + (a' + "-src")));
      assert tree'[|intent|..] == "-plan-r" + (r' + ("-a" + (a' + ("-src-" + key'))));
      if tree == own {
        assert rest[7..] == own[|intent|..][7..];
        SamePlanTail(plan, run, "-src-" + key, "-src");
        assert false;
      }
      if tree == tree' {
        assert rest[7..] == tree'[|intent|..][7..];
        SamePlanTail(plan, run, "-src-" + key, "-src-" + key');
        assert key == ("-src-" + key)[5..] == ("-src-" + key')[5..] == key';
      }
    } else {
      assert rest[1] == 'p';
      assert own[|intent| + 1] == if run.BuildRun? then 'b' else 'r';
    }
  }

  lemma SamePlanTail(plan: Run, run: Run, t: string, u: string)
    requires plan.PlanRun? && run.PlanRun?
    requires t != "" && t[0] == '-' && u != "" && u[0] == '-'
    requires Decimal(plan.round) + ("-a" + (Decimal(plan.attempt) + t))
             == Decimal(run.round) + ("-a" + (Decimal(run.attempt) + u))
    ensures plan == run && t == u
  {
    var p, q := Decimal(plan.attempt) + t, Decimal(run.attempt) + u;
    DigitsEnd(plan.round, "-a" + p, run.round, "-a" + q);
    assert p == ("-a" + p)[2..] == ("-a" + q)[2..] == q;
    DigitsEnd(plan.attempt, t, run.attempt, u);
  }

  // ---- across Intents ----

  predicate ValidRun(run: Run) {
    run.PlanRun? || DNSLabel(run.key)
  }

  predicate RepositoryKey(key: string) {
    DNSLabel(key) && |key| <= MAX_REPOSITORY_KEY_LENGTH
  }

  /** A Kubernetes object name, a dotted list of labels, short enough for a Project. */
  predicate ProjectName(project: string) {
    |project| <= MAX_PROJECT_NAME_LENGTH && DottedLabels(project)
  }

  /** A run the schemas admit, of an Intent they admit. */
  predicate Named(project: string, issue: nat, run: Run) {
    ProjectName(project) && InBudget(project, issue, run) && ValidRun(run)
  }

  /** A tree of one Intent's plan run and a run of another want one Repository name. */
  ghost predicate Collision(
    project: string, issue: nat, plan: Run, key: string, project': string, issue': nat, run: Run)
  {
    && Named(project, issue, plan) && plan.PlanRun? && RepositoryKey(key)
    && Named(project', issue', run)
    && IntentRunTreeRepositoryName(RunName(IntentName(project, issue), plan), key)
       == OwnRepositoryName(RunName(IntentName(project', issue'), run))
  }

  ghost predicate TreeCollides(key: string) {
    exists project, issue, plan: Run, project', issue', run ::
      Collision(project, issue, plan, key, project', issue', run)
  }

  predicate InBounds(issue: nat, run: Run) {
    InBudget("p", issue, run) && ValidRun(run)
  }

  function AttemptTail(d: nat): string {
    "a" + Decimal(d) + "-src"
  }

  /** The key is how a run's own Repository name ends: from its attempt on, or from its issue on. */
  ghost predicate EndOfAnOwnName(key: string) {
    || (exists d: nat :: 1 <= d <= MAX_INTENT_RUN_ATTEMPT && key == AttemptTail(d))
    || (exists issue: nat, run :: InBounds(issue, run) && key == OwnRepositoryName(RunName(Decimal(issue), run)))
  }

  /** The same, read off the key. */
  predicate ReadsAsOwn(key: string) {
    var name, n := TrimSuffix(key, "-src"), LeadingDigits(key);
    && name != key
    && match ParseAttempt(name) {
         case Some(d) => 1 <= d <= MAX_INTENT_RUN_ATTEMPT
         case None =>
           match (ParseNumber(key[..n]), ParseRun(key[..n], name))
           case (Some(issue), Some(run)) => InBounds(issue, run)
           case _ => false
       }
  }

  lemma WitnessOfAnotherIntent()
    ensures RunName(IntentName("a", 1), PlanRun(1, 1)) == "a-1-plan-r1-a1"
  {}

  lemma PlainProjectName(project: string)
    requires DNSLabel(project) && |project| <= MAX_PROJECT_NAME_LENGTH
    ensures ProjectName(project)
  {
    SplitWhole(project, '.');
  }

  // ---- names as pieces between dashes ----

  function Dash(a: string, t: string): (s: string)
    ensures |s| == |a| + 1 + |t|
  {
    a + "-" + t
  }

  lemma DashAssociates(a: string, b: string, c: string)
    ensures Dash(Dash(a, b), c) == Dash(a, Dash(b, c))
  {}

  predicate Dashless(t: string) {
    forall i | 0 <= i < |t| :: t[i] != '-'
  }

  lemma NumberedPiece(prefix: string, n: nat)
    requires Dashless(prefix)
    ensures Dashless(prefix + Decimal(n))
    ensures (prefix + Decimal(n))[|prefix|] == Decimal(n)[0] && IsDigit(Decimal(n)[0])
  {
    var d := Decimal(n);
    forall i | 0 <= i < |prefix + d| ensures (prefix + d)[i] != '-' {
      assert i >= |prefix| ==> (prefix + d)[i] == d[i - |prefix|] && IsDigit(d[i - |prefix|]);
    }
  }

  lemma DashParts(a: string, k: string)
    ensures Dash(a, k)[..|a|] == a && Dash(a, k)[|a|] == '-' && Dash(a, k)[|a| + 1..] == k
  {}

  /** A longer end of one string goes on before a shorter one, at a dash. */
  lemma LongerCut(a: string, k: string, b: string, t: string)
    requires Dash(a, k) == Dash(b, t) && |k| > |t|
    ensures var n := |k| - |t| - 1;
      k == Dash(k[..n], t) && Dash(a, k[..n]) == b && k[n] == '-'
  {
    var s, n := Dash(a, k), |k| - |t| - 1;
    DashParts(a, k);
    DashParts(b, t);
    hide Dash;
    assert |b| == |a| + 1 + n;
    assert k[n] == s[|b|] == '-';
    assert k[n + 1..] == s[|a| + 1..][n + 1..] == s[|b| + 1..] == t;
    assert k == k[..n] + [k[n]] + k[n + 1..];
    assert b == s[..|b|] == s[..|a|] + [s[|a|]] + s[|a| + 1..][..n];
    DashIs(k[..n], t);
    DashIs(a, k[..n]);
  }

  lemma DashIs(a: string, t: string)
    ensures Dash(a, t) == a + ['-'] + t
  {}

  /** Two ways to cut one string at a dash: one of the ends is the other's, or goes on before it. */
  lemma TwoCuts(a: string, k: string, b: string, t: string) returns (x: string)
    requires Dash(a, k) == Dash(b, t)
    ensures |k| == |t| ==> k == t && a == b
    ensures |k| > |t| ==> k == Dash(x, t) && Dash(a, x) == b && !Dashless(k)
    ensures |k| < |t| ==> t == Dash(x, k) && a == Dash(b, x) && !Dashless(t)
  {
    DashParts(a, k);
    DashParts(b, t);
    hide Dash;
    if |k| > |t| {
      LongerCut(a, k, b, t);
      x := k[..|k| - |t| - 1];
    } else if |k| < |t| {
      LongerCut(b, t, a, k);
      x := t[..|t| - |k| - 1];
    } else {
      x := "";
    }
  }

  /** The last piece of a name is the last piece of what it ends in. */
  lemma Peel(a: string, k: string, b: string, t: string) returns (rest: Option<string>)
    requires Dash(a, k) == Dash(b, t) && Dashless(t)
    ensures rest.None? ==> k == t && a == b
    ensures rest.Some? ==> k == Dash(rest.value, t) && Dash(a, rest.value) == b
  {
    var x := TwoCuts(a, k, b, t);
    rest := if |k| == |t| then None else Some(x);
  }

  lemma PeelBoth(a: string, k: string, b: string, t: string)
    requires Dash(a, k) == Dash(b, t) && Dashless(k) && Dashless(t)
    ensures a == b && k == t
  {
    var x := TwoCuts(a, k, b, t);
  }

  /** A run's name up to its key, or to its attempt if it has none. */
  function Head(intent: string, run: Run): string {
    match run
    case PlanRun(round, _) => Dash(Dash(intent, "plan"), "r" + Decimal(round))
    case BuildRun(round, _, _) => Dash(Dash(intent, "bld"), "r" + Decimal(round))
    case ReviseRun(round, _, _) => Dash(intent, "rev" + Decimal(round))
  }

  function Keyed(head: string, run: Run): string {
    if run.PlanRun? then head else Dash(head, run.key)
  }

  /** From the head on, what the run's own Repository name is. */
  function OwnFrom(head: string, run: Run): string {
    Dash(Dash(Keyed(head, run), "a" + Decimal(run.attempt)), "src")
  }

  lemma RunNameInPieces(intent: string, run: Run)
    ensures RunName(intent, run) == Dash(Keyed(Head(intent, run), run), "a" + Decimal(run.attempt))
  {
    hide Decimal, Dash;
    var r, a := Decimal(run.round), Decimal(run.attempt);
    match run
    case PlanRun(_, _) =>
      HeadInPieces(intent, "plan", "-plan-r", r);
      DashedAttempt(intent + "-plan-r" + r, a);
    case BuildRun(_, key, _) =>
      HeadInPieces(intent, "bld", "-bld-r", r);
      DashedKey(intent + "-bld-r" + r, key);
      DashedAttempt(intent + "-bld-r" + r + "-" + key, a);
    case ReviseRun(_, key, _) =>
      DashedRevision(intent, r);
      DashedKey(intent + "-rev" + r, key);
      DashedAttempt(intent + "-rev" + r + "-" + key, a);
  }

  lemma Regroup(a: string, b: string, c: string)
    ensures (a + b) + c == a + (b + c)
  {}

  lemma HeadInPieces(intent: string, word: string, sep: string, r: string)
    requires sep == "-" + word + "-r"
    ensures Dash(Dash(intent, word), "r" + r) == intent + sep + r
  {
    var head := intent + "-" + word;
    Regroup(head + "-", "r", r);
    Regroup(head, "-", "r");
    assert "-" + "r" == "-r";
    Regroup(intent + "-", word, "-r");
    Regroup(intent, "-", word + "-r");
    Regroup("-", word, "-r");
  }

  lemma DashedRevision(intent: string, r: string)
    ensures Dash(intent, "rev" + r) == intent + "-rev" + r
  {
    Regroup(intent + "-", "rev", r);
    Regroup(intent, "-", "rev");
    assert "-" + "rev" == "-rev";
  }

  lemma DashedKey(head: string, key: string)
    ensures Dash(head, key) == head + "-" + key
  {}

  lemma DashedAttempt(name: string, a: string)
    ensures Dash(name, "a" + a) == name + "-a" + a
  {
    Regroup(name + "-", "a", a);
    Regroup(name, "-", "a");
    assert "-" + "a" == "-a";
  }

  lemma SourceOf(run: string)
    ensures OwnRepositoryName(run) == Dash(run, "src")
  {}

  lemma TreeOf(run: string, key: string)
    ensures IntentRunTreeRepositoryName(run, key) == Dash(Dash(run, "src"), key)
  {}

  lemma OwnNameInPieces(intent: string, run: Run)
    ensures OwnRepositoryName(RunName(intent, run)) == OwnFrom(Head(intent, run), run)
  {
    hide Dash, Decimal;
    RunNameInPieces(intent, run);
    SourceOf(RunName(intent, run));
  }

  lemma TreeNameInPieces(project: string, issue: nat, plan: Run, key: string)
    requires plan.PlanRun?
    ensures var p := Dash(Head(Dash(project, Decimal(issue)), plan), "a" + Decimal(plan.attempt));
      IntentRunTreeRepositoryName(RunName(IntentName(project, issue), plan), key) == Dash(Dash(p, "src"), key)
  {
    hide Dash, Decimal, RunName, IntentName;
    IntentNameInPieces(project, issue);
    RunNameInPieces(IntentName(project, issue), plan);
    TreeOf(RunName(IntentName(project, issue), plan), key);
  }

  lemma HeadAfter(z: string, intent: string, run: Run)
    ensures Head(Dash(z, intent), run) == Dash(z, Head(intent, run))
  {
    hide Dash, Decimal;
    match run
    case PlanRun(round, _) =>
      DashAssociates(z, intent, "plan");
      DashAssociates(z, Dash(intent, "plan"), "r" + Decimal(round));
    case BuildRun(round, _, _) =>
      DashAssociates(z, intent, "bld");
      DashAssociates(z, Dash(intent, "bld"), "r" + Decimal(round));
    case ReviseRun(round, _, _) =>
      DashAssociates(z, intent, "rev" + Decimal(round));
  }

  lemma OwnAfter(z: string, head: string, run: Run)
    ensures OwnFrom(Dash(z, head), run) == Dash(z, OwnFrom(head, run))
  {
    hide Dash, Decimal;
    var a := "a" + Decimal(run.attempt);
    if !run.PlanRun? {
      DashAssociates(z, head, run.key);
    }
    DashAssociates(z, Keyed(head, run), a);
    DashAssociates(z, Dash(Keyed(head, run), a), "src");
  }

  // ---- which keys collide ----

  lemma Pieces(round: nat, attempt: nat)
    ensures Dashless("src") && Dashless("plan") && Dashless("bld")
    ensures Dashless("r" + Decimal(round)) && Dashless("rev" + Decimal(round)) && Dashless("a" + Decimal(attempt))
    ensures ("r" + Decimal(round))[0] == 'r' == ("rev" + Decimal(round))[0] && ("a" + Decimal(attempt))[0] == 'a'
    ensures IsDigit(("r" + Decimal(round))[1]) && ("rev" + Decimal(round))[1] == 'e'
  {
    NumberedPiece("r", round);
    NumberedPiece("rev", round);
    NumberedPiece("a", attempt);
  }

  /** What ends in a head, after a piece "src", starts with the issue at the latest. */
  lemma HeadCase(p: string, x: string, project: string, issue: nat, run: Run) returns (z: Option<string>)
    requires Dash(Dash(p, "src"), x) == Head(Dash(project, Decimal(issue)), run)
    ensures x == if z.None? then Head(Decimal(issue), run) else Dash(z.value, Head(Decimal(issue), run))
  {
    hide Dash, Decimal, Dashless;
    Pieces(run.round, 0);
    NumberedPiece("", issue);
    assert "" + Decimal(issue) == Decimal(issue);
    var ps, h, r := Dash(p, "src"), Dash(project, Decimal(issue)), Decimal(run.round);
    var x2: string;
    if run.ReviseRun? {
      var x1 := Peel(ps, x, h, "rev" + r);
      if x1.None? {
        PeelBoth(p, "src", project, Decimal(issue));
        assert false;
      }
      x2 := x1.value;
    } else {
      var word := if run.PlanRun? then "plan" else "bld";
      var x1 := Peel(ps, x, Dash(h, word), "r" + r);
      if x1.None? {
        PeelBoth(p, "src", h, word);
        assert false;
      }
      var next := Peel(ps, x1.value, h, word);
      if next.None? {
        PeelBoth(p, "src", project, Decimal(issue));
        assert false;
      }
      x2 := next.value;
    }
    z := Peel(ps, x2, project, Decimal(issue));
    if z.Some? {
      HeadAfter(z.value, Decimal(issue), run);
    }
  }

  /** A repository key that holds all of a plan run's tree name from its issue on is too long. */
  lemma LongKey(head: string, w: string, project: string, issue: nat, plan: Run, intent: string, run: Run)
    requires plan.PlanRun? && !run.PlanRun? && head == Head(intent, run)
    requires Dash(Dash(Head(Dash(project, Decimal(issue)), plan), "a" + Decimal(plan.attempt)), "src") == Dash(head, w)
    ensures |w| >= 16
  {
    hide Dash, Decimal, Dashless;
    Pieces(run.round, plan.attempt);
    Pieces(plan.round, plan.attempt);
    NumberedPiece("", issue);
    assert "" + Decimal(issue) == Decimal(issue);
    var i, r, a := Dash(project, Decimal(issue)), "r" + Decimal(plan.round), "a" + Decimal(plan.attempt);
    var before := if run.BuildRun? then Dash(intent, "bld") else intent;
    var last := if run.BuildRun? then "r" + Decimal(run.round) else "rev" + Decimal(run.round);
    var w1 := Peel(head, w, Dash(Dash(Dash(i, "plan"), r), a), "src");
    if w1.None? {
      PeelBoth(before, last, Dash(Dash(i, "plan"), r), a);
      assert false;
    }
    var w2 := Peel(head, w1.value, Dash(Dash(i, "plan"), r), a);
    if w2.None? {
      PeelBoth(before, last, Dash(i, "plan"), r);
      if run.BuildRun? {
        PeelBoth(intent, "bld", i, "plan");
      }
      assert false;
    }
    var w3 := Peel(head, w2.value, Dash(i, "plan"), r);
    if w3.None? {
      PeelBoth(before, last, i, "plan");
      assert false;
    }
    var w4 := Peel(head, w3.value, i, "plan");
    if w4.None? {
      PeelBoth(before, last, project, Decimal(issue));
      assert false;
    }
    var w5 := Peel(head, w4.value, project, Decimal(issue));
  }

  lemma OwnNamesAreLong(issue: nat, run: Run)
    requires ValidRun(run)
    ensures |OwnFrom(Head(Decimal(issue), run), run)| >= 15
  {
    hide Dash, Decimal;
  }

  lemma CollidingKeyEndsAnOwnName(
    project: string, issue: nat, plan: Run, key: string, project': string, issue': nat, run: Run)
    requires Collision(project, issue, plan, key, project', issue', run)
    ensures EndOfAnOwnName(key)
  {
    hide Dash, Decimal, Dashless, Head, RunName, IntentName, DNSLabel, ProjectName;
    var h, a := Dash(project', Decimal(issue')), "a" + Decimal(run.attempt);
    var head := Head(h, run);
    var q := Head(Dash(project, Decimal(issue)), plan);
    var p := Dash(q, "a" + Decimal(plan.attempt));
    assert h == IntentName(project', issue') by {
      IntentNameInPieces(project', issue');
    }
    TreeNameInPieces(project, issue, plan, key);
    OwnNameInPieces(h, run);
    Pieces(run.round, run.attempt);
    var k1 := Peel(Dash(p, "src"), key, Dash(Keyed(head, run), a), "src");
    if k1.None? {
      PeelBoth(p, "src", Keyed(head, run), a);
      assert false;
    }
    var k2 := Peel(Dash(p, "src"), k1.value, Keyed(head, run), a);
    if k2.None? {
      AttemptTailInPieces(run.attempt);
      assert key == AttemptTail(run.attempt);
    } else {
      var x := KeyPeeled(p, q, k2.value, project, issue, plan, h, head, run);
      var z := HeadCase(p, x, project', issue', run);
      OwnNameInPieces(Decimal(issue'), run);
      if z.None? {
        assert InBounds(issue', run);
      } else {
        OwnAfter(z.value, Head(Decimal(issue'), run), run);
        OwnNamesAreLong(issue', run);
        KeyStartsInAPiece(z.value, OwnFrom(Head(Decimal(issue'), run), run), key);
        assert false;
      }
    }
  }

  lemma IntentNameInPieces(project: string, issue: nat)
    ensures IntentName(project, issue) == Dash(project, Decimal(issue))
  {}

  lemma AttemptTailInPieces(d: nat)
    ensures AttemptTail(d) == Dash("a" + Decimal(d), "src")
  {
    hide Decimal;
  }

  lemma KeyStartsInAPiece(z: string, t: string, key: string)
    requires key == Dash(z, t) && DNSLabel(key)
    ensures |key| >= |t| + 2
  {}

  /** Whatever the tree's key covers of a run's own key, it covers all of it. */
  lemma KeyPeeled(
    p: string, q: string, k: string, project: string, issue: nat, plan: Run, intent: string, head: string, run: Run)
    returns (x: string)
    requires plan.PlanRun? && (run.PlanRun? || |run.key| <= MAX_REPOSITORY_KEY_LENGTH)
    requires q == Head(Dash(project, Decimal(issue)), plan) && p == Dash(q, "a" + Decimal(plan.attempt))
    requires head == Head(intent, run)
    requires Dash(Dash(p, "src"), k) == Keyed(head, run)
    ensures k == Keyed(x, run) && Dash(Dash(p, "src"), x) == head
  {
    hide Dash, Decimal, Dashless;
    if run.PlanRun? {
      x := k;
    } else {
      x := TwoCuts(Dash(p, "src"), k, head, run.key);
      if |k| < |run.key| {
        LongKey(head, x, project, issue, plan, intent, run);
        assert false;
      } else if |k| == |run.key| {
        Pieces(run.round, 0);
        if run.BuildRun? {
          PeelBoth(p, "src", Dash(intent, "bld"), "r" + Decimal(run.round));
        } else {
          PeelBoth(p, "src", intent, "rev" + Decimal(run.round));
        }
        assert false;
      }
    }
  }

  /** A key that is an attempt's end collides with a build whose own key holds the rest of the tree's name. */
  lemma AttemptTailCollides(d: nat)
    requires 1 <= d <= MAX_INTENT_RUN_ATTEMPT
    ensures Collision("q-5-bld-r1", 1, PlanRun(1, 1), AttemptTail(d), "q", 5, BuildRun(1, "1-plan-r1-a1-src", d))
  {
    hide ProjectName, Decimal, RunName, IntentName, Dash, Head, AttemptTail;
    PlainProjectName("q");
    PlainProjectName("q-5-bld-r1");
    AttemptTailIsAKey(d);
    WitnessOfAttempt(d);
    var plan := "q-5-bld-r1-1-plan-r1-a1";
    OwnNameInPieces(IntentName("q", 5), BuildRun(1, "1-plan-r1-a1-src", d));
    TreeOf(plan, AttemptTail(d));
    AttemptTailInPieces(d);
    DashAssociates(Dash(plan, "src"), "a" + Decimal(d), "src");
  }

  lemma WitnessOfAttempt(d: nat)
    ensures RunName(IntentName("q-5-bld-r1", 1), PlanRun(1, 1)) == "q-5-bld-r1-1-plan-r1-a1"
    ensures Head(IntentName("q", 5), BuildRun(1, "1-plan-r1-a1-src", d)) == "q-5-bld-r1"
    ensures Dash("q-5-bld-r1-1-plan-r1-a1", "src") == Dash("q-5-bld-r1", "1-plan-r1-a1-src")
  {}

  lemma AttemptTailIsAKey(d: nat)
    requires 1 <= d <= MAX_INTENT_RUN_ATTEMPT
    ensures RepositoryKey(AttemptTail(d))
  {
    var key, a := AttemptTail(d), Decimal(d);
    DecimalWidth(d, 2);
    Widths();
    assert key[0] == 'a' && key[|key| - 1] == 'c';
    forall i | 0 <= i < |key| ensures Alnum(key[i]) || key[i] == '-' {
      assert 1 <= i < 1 + |a| ==> key[i] == a[i - 1] && IsDigit(a[i - 1]);
      assert i >= 1 + |a| ==> key[i] == "-src"[i - 1 - |a|];
    }
  }

  /** A key that is an own name from its issue on collides with that very run, of a Project
      whose name is the rest of the tree's name. */
  lemma OwnNameCollides(key: string, issue: nat, run: Run)
    requires RepositoryKey(key) && InBounds(issue, run) && key == OwnRepositoryName(RunName(Decimal(issue), run))
    ensures Collision("a", 1, PlanRun(1, 1), key, "a-1-plan-r1-a1-src", issue, run)
  {
    hide Dash, Decimal, Head, RunName, IntentName, ProjectName, DNSLabel;
    var project := "a-1-plan-r1-a1-src";
    assert DNSLabel("a") && DNSLabel(project) by {
      WitnessKeys();
    }
    PlainProjectName("a");
    PlainProjectName(project);
    WitnessOfAnotherIntent();
    IntentNameInPieces(project, issue);
    OwnNameInPieces(Dash(project, Decimal(issue)), run);
    OwnNameInPieces(Decimal(issue), run);
    HeadAfter(project, Decimal(issue), run);
    OwnAfter(project, Head(Decimal(issue), run), run);
    TreeOf("a-1-plan-r1-a1", key);
    WitnessDash();
  }

  lemma WitnessKeys()
    ensures DNSLabel("a") && DNSLabel("a-1-plan-r1-a1-src")
  {}

  lemma WitnessDash()
    ensures Dash("a-1-plan-r1-a1", "src") == "a-1-plan-r1-a1-src"
  {}

  /** Inside the budget and across two Intents: one name, two Repositories. */
  lemma TreeNameOfAnotherIntent()
    ensures Collision("a", 1, PlanRun(1, 1), "5-rev1-b-a1-src", "a-1-plan-r1-a1-src", 5, ReviseRun(1, "b", 1))
  {
    hide Collision;
    WitnessRevise();
    OwnNameCollides("5-rev1-b-a1-src", 5, ReviseRun(1, "b", 1));
  }

  lemma WitnessRevise()
    ensures RepositoryKey("5-rev1-b-a1-src") && InBounds(5, ReviseRun(1, "b", 1))
    ensures "5-rev1-b-a1-src" == OwnRepositoryName(RunName(Decimal(5), ReviseRun(1, "b", 1)))
  {}

  lemma SuffixTrimmed(x: string)
    ensures TrimSuffix(x + "-src", "-src") == x
  {
    assert (x + "-src")[|x|..] == "-src" && (x + "-src")[..|x|] == x;
  }

  lemma AttemptReadsAsOwn(d: nat)
    requires 1 <= d <= MAX_INTENT_RUN_ATTEMPT
    ensures ReadsAsOwn(AttemptTail(d))
  {
    hide Decimal, ParseAttempt, ParseRun, TrimSuffix;
    SuffixTrimmed("a" + Decimal(d));
    ParseNumberOf(d);
  }

  lemma OwnReadsAsOwn(issue: nat, run: Run)
    requires InBounds(issue, run)
    ensures ReadsAsOwn(OwnRepositoryName(RunName(Decimal(issue), run)))
  {
    hide Decimal, ParseRun, TrimSuffix, InBounds, RunName, ParseNumber;
    var i, name := Decimal(issue), RunName(Decimal(issue), run);
    var rest := NameGoesOn(i, run);
    SuffixTrimmed(name);
    assert name + "-src" == i + (rest + "-src") && (name + "-src")[..|i|] == i;
    LeadingDigitsOf(i, rest + "-src");
    ParseNumberOf(issue);
    ParseOfName(i, run);
    assert name[0] == i[0] && IsDigit(i[0]);
  }

  lemma NameGoesOn(intent: string, run: Run) returns (rest: string)
    ensures RunName(intent, run) == intent + rest && rest != "" && rest[0] == '-'
  {
    hide Decimal;
    rest := RunName(intent, run)[|intent|..];
  }

  /** The reading decides it. */
  lemma ReadingDecides(key: string)
    ensures ReadsAsOwn(key) <==> EndOfAnOwnName(key)
  {
    hide Decimal, ParseAttempt, ParseNumber, ParseRun, RunName, InBounds, LeadingDigits;
    if EndOfAnOwnName(key) {
      if d: nat :| 1 <= d <= MAX_INTENT_RUN_ATTEMPT && key == AttemptTail(d) {
        AttemptReadsAsOwn(d);
      } else {
        var issue: nat, run :| InBounds(issue, run) && key == OwnRepositoryName(RunName(Decimal(issue), run));
        OwnReadsAsOwn(issue, run);
      }
    }
    if ReadsAsOwn(key) {
      var name, n := TrimSuffix(key, "-src"), LeadingDigits(key);
      NumberOfParse(name);
      NumberOfParse(key[..n]);
      if ParseAttempt(name).Some? {
        assert key == AttemptTail(ParseAttempt(name).value);
      } else {
        NameOfParse(key[..n], name);
      }
    }
  }

  /** Exactly which keys can meet a run's own Repository name of another Intent, all inside the budget. */
  lemma WhichKeysCollide(key: string)
    requires RepositoryKey(key)
    ensures TreeCollides(key) <==> ReadsAsOwn(key)
    ensures TreeCollides(key) <==> EndOfAnOwnName(key)
  {
    ReadingDecides(key);
    hide ReadsAsOwn;
    hide Collision, RunName, RepositoryKey, AttemptTail, InBounds, Decimal, OwnRepositoryName;
    if TreeCollides(key) {
      var project, issue, plan: Run, project', issue', run :|
        Collision(project, issue, plan, key, project', issue', run);
      CollidingKeyEndsAnOwnName(project, issue, plan, key, project', issue', run);
    }
    if EndOfAnOwnName(key) {
      if d: nat :| 1 <= d <= MAX_INTENT_RUN_ATTEMPT && key == AttemptTail(d) {
        AttemptTailCollides(d);
      } else {
        var issue: nat, run :| InBounds(issue, run) && key == OwnRepositoryName(RunName(Decimal(issue), run));
        OwnNameCollides(key, issue, run);
      }
    }
  }

  // ---- what the names may be used as ----

  const MAX_OBJECT_NAME_LENGTH: nat := 253

  /** A Kubernetes object name: an RFC 1123 subdomain. */
  predicate ObjectName(s: string) {
    s != "" && |s| <= MAX_OBJECT_NAME_LENGTH && DottedLabels(s)
  }

  predicate LabelAlnum(c: char) {
    Alnum(c) || 'A' <= c <= 'Z'
  }

  /** A Kubernetes label value. */
  predicate LabelValue(s: string) {
    && |s| <= LABEL_VALUE_MAX_LENGTH
    && (s != "" ==> LabelAlnum(s[0]) && LabelAlnum(s[|s| - 1]))
    && forall i | 0 <= i < |s| :: LabelAlnum(s[i]) || s[i] == '-' || s[i] == '_' || s[i] == '.'
  }

  /** What can follow a dash in a name. */
  predicate Piece(t: string) {
    t != "" && LabelChars(t) && Alnum(t[|t| - 1])
  }

  lemma DashKeepsLabels(a: string, t: string)
    requires DottedLabels(a) && Piece(t)
    ensures DottedLabels(Dash(a, t))
  {
    var parts, x := Split(a, '.'), "-" + t;
    DashedPiece(t);
    Regroup(a, "-", t);
    SplitAppend(a, x, '.');
    hide Split, DNSLabel, LabelChars;
    var n := |parts| - 1;
    assert parts[n] in parts;
    LabelGoesOn(parts[n], x);
    forall part | part in parts[..n] + [parts[n] + x] ensures DNSLabel(part) {
      assert part in parts[..n] ==> part in parts;
    }
  }

  lemma DashedPiece(t: string)
    requires Piece(t)
    ensures LabelChars("-" + t) && '.' !in "-" + t && Alnum(("-" + t)[|t|])
  {
    var x := "-" + t;
    assert forall i | 0 <= i < |x| :: x[i] == if i == 0 then '-' else t[i - 1];
  }

  lemma LabelGoesOn(part: string, x: string)
    requires DNSLabel(part) && x != "" && LabelChars(x) && Alnum(x[|x| - 1])
    ensures DNSLabel(part + x)
  {}

  lemma NumberedIsPiece(prefix: string, n: nat)
    requires LabelChars(prefix)
    ensures Piece(prefix + Decimal(n))
  {
    DigitsArePiece(Decimal(n));
    PieceGoesOn(prefix, Decimal(n));
  }

  lemma DigitsArePiece(d: string)
    requires d != "" && AllDigits(d)
    ensures Piece(d)
  {
    assert forall i | 0 <= i < |d| :: IsDigit(d[i]) && Alnum(d[i]);
  }

  lemma PieceGoesOn(a: string, b: string)
    requires LabelChars(a) && Piece(b)
    ensures Piece(a + b)
  {
    var t := a + b;
    assert forall i | 0 <= i < |t| :: t[i] == if i < |a| then a[i] else b[i - |a|];
  }

  lemma RunPieces(issue: nat, run: Run)
    requires ValidRun(run)
    ensures Piece(Decimal(issue)) && Piece("plan") && Piece("bld") && Piece("src")
    ensures Piece("r" + Decimal(run.round)) && Piece("rev" + Decimal(run.round)) && Piece("a" + Decimal(run.attempt))
    ensures !run.PlanRun? ==> Piece(run.key)
  {
    DigitsArePiece(Decimal(issue));
    hide Decimal, DNSLabel;
    NumberedIsPiece("r", run.round);
    NumberedIsPiece("rev", run.round);
    NumberedIsPiece("a", run.attempt);
    if !run.PlanRun? {
      KeyIsPiece(run.key);
    }
  }

  lemma RunNameIsDotted(project: string, issue: nat, run: Run)
    requires DottedLabels(project) && ValidRun(run)
    ensures DottedLabels(RunName(IntentName(project, issue), run))
  {
    hide Decimal, Dash, DottedLabels, Piece, RunName, IntentName, DNSLabel;
    RunPieces(issue, run);
    IntentNameInPieces(project, issue);
    var intent := Dash(project, Decimal(issue));
    DashKeepsLabels(project, Decimal(issue));
    match run {
      case PlanRun(round, _) =>
        DashKeepsLabels(intent, "plan");
        DashKeepsLabels(Dash(intent, "plan"), "r" + Decimal(round));
      case BuildRun(round, key, _) =>
        DashKeepsLabels(intent, "bld");
        DashKeepsLabels(Dash(intent, "bld"), "r" + Decimal(round));
        DashKeepsLabels(Head(intent, run), key);
      case ReviseRun(round, key, _) =>
        DashKeepsLabels(intent, "rev" + Decimal(round));
        DashKeepsLabels(Head(intent, run), key);
    }
    RunNameInPieces(intent, run);
    DashKeepsLabels(Keyed(Head(intent, run), run), "a" + Decimal(run.attempt));
  }

  lemma SplitStarts(s: string, sep: char)
    requires s != "" && Split(s, sep)[0] != ""
    ensures s[0] == Split(s, sep)[0][0]
  {}

  lemma {:induction false} JoinStops(parts: seq<string>, sep: char)
    requires parts != [] && parts[|parts| - 1] != ""
    ensures var s, last := Join(parts, sep), parts[|parts| - 1];
      s != "" && s[|s| - 1] == last[|last| - 1]
  {
    if |parts| > 1 {
      JoinStops(parts[1..], sep);
    }
  }

  lemma SplitStops(s: string, sep: char)
    ensures var parts := Split(s, sep); var last := parts[|parts| - 1];
      last != "" ==> s != "" && s[|s| - 1] == last[|last| - 1]
  {
    hide Split, Join;
    JoinSplit(s, sep);
    if Split(s, sep)[|Split(s, sep)| - 1] != "" {
      JoinStops(Split(s, sep), sep);
    }
  }

  /** Every character but the separators is in some element. */
  lemma {:induction false} SplitHolds(s: string, sep: char, i: nat) returns (k: nat)
    requires i < |s| && s[i] != sep
    ensures k < |Split(s, sep)| && s[i] in Split(s, sep)[k]
  {
    if i == 0 {
      k := 0;
      assert s[0] == Split(s, sep)[0][0];
    } else {
      k := SplitHolds(s[1..], sep, i - 1);
      k := if s[0] == sep then k + 1 else k;
    }
  }

  lemma DottedIsLabelValue(s: string)
    requires s != "" && |s| <= LABEL_VALUE_MAX_LENGTH && DottedLabels(s)
    ensures LabelValue(s)
  {
    var parts := Split(s, '.');
    assert DNSLabel(parts[0]) && DNSLabel(parts[|parts| - 1]);
    SplitStarts(s, '.');
    SplitStops(s, '.');
    forall i | 0 <= i < |s| && s[i] != '.' ensures Alnum(s[i]) || s[i] == '-' {
      var k := SplitHolds(s, '.', i);
      assert DNSLabel(parts[k]);
    }
  }

  /** A run's name is a valid object name and a valid label value, and so is its Intent's; the
      Repositories it owns, for its own tree and for each extra one, have valid object names. */
  lemma NamesAreValid(project: string, issue: nat, run: Run, key: string)
    requires Named(project, issue, run) && RepositoryKey(key)
    ensures var intent := IntentName(project, issue); var name := RunName(intent, run);
      && ObjectName(intent) && LabelValue(intent)
      && ObjectName(name) && LabelValue(name)
      && ObjectName(OwnRepositoryName(name)) && ObjectName(IntentRunTreeRepositoryName(name, key))
  {
    NamesFitTheBudget(project, issue, run);
    hide Decimal, Dash, DottedLabels, RunName, DNSLabel, LabelValue;
    var intent := IntentName(project, issue);
    var name := RunName(intent, run);
    RunPieces(issue, run);
    IntentNameInPieces(project, issue);
    DashKeepsLabels(project, Decimal(issue));
    DottedIsLabelValue(intent);
    RunNameIsDotted(project, issue, run);
    RunNameInPieces(intent, run);
    DottedIsLabelValue(name);
    SourceOf(name);
    DashKeepsLabels(name, "src");
    TreeOf(name, key);
    KeyIsPiece(key);
    DashKeepsLabels(Dash(name, "src"), key);
  }

  lemma KeyIsPiece(key: string)
    requires DNSLabel(key)
    ensures Piece(key)
  {}
}
