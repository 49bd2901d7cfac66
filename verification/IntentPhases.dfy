/** The Intent phase machine: the edge table, the setter that keeps a bounded
    entry log, and the reader that recovers the blocked-from phase from it. */
module IntentPhases {
  import opened Text

  /** `Unset` is the empty phase of a new Intent. */
  datatype IntentPhase =
    | Unset | Pending | Planning | AwaitingApproval | Building | InReview
    | Revising | Blocked | Merged | Closed | Failed

  type Time = int

  datatype IntentPhaseTime = IntentPhaseTime(phase: IntentPhase, at: Time)

  datatype IntentPullRequest = IntentPullRequest(repository: string, headSHA: string, state: string)

  datatype IntentPreviewBase = IntentPreviewBase(repository: string, sha: string)

  const MAX_INTENT_PHASE_TIMES: nat := 64

  /** The edge table. */
  predicate IntentEdge(from: IntentPhase, to: IntentPhase) {
    match from
    case Unset => to.Pending?
    case Pending => to.Planning? || to.Blocked? || to.Closed?
    case Planning => to.AwaitingApproval? || to.Blocked? || to.Closed? || to.Failed?
    case AwaitingApproval => to.Building? || to.Planning? || to.Blocked? || to.Closed?
    case Building => to.InReview? || to.Blocked? || to.Closed? || to.Failed?
    case InReview => to.Revising? || to.Merged? || to.Blocked? || to.Closed?
    case Revising => to.InReview? || to.Merged? || to.Blocked? || to.Closed?
    case Blocked =>
      || to.Pending? || to.Planning? || to.AwaitingApproval? || to.Building?
      || to.InReview? || to.Revising? || to.Merged? || to.Closed?
    case Merged => false
    case Closed => false
    case Failed => to.Planning?
  }

  /** The table read by target: who may enter each phase. */
  lemma IntentEdgesByTarget(from: IntentPhase, to: IntentPhase)
    ensures to == Unset ==> !IntentEdge(from, to)
    ensures to == Pending ==> (IntentEdge(from, to) <==> from == Unset || from == Blocked)
    ensures to == Planning ==> (IntentEdge(from, to) <==>
      from == Pending || from == AwaitingApproval || from == Blocked || from == Failed)
    ensures to == AwaitingApproval ==> (IntentEdge(from, to) <==> from == Planning || from == Blocked)
    ensures to == Building ==> (IntentEdge(from, to) <==> from == AwaitingApproval || from == Blocked)
    ensures to == InReview ==> (IntentEdge(from, to) <==> from == Building || from == Revising || from == Blocked)
    ensures to == Revising ==> (IntentEdge(from, to) <==> from == InReview || from == Blocked)
    ensures to == Merged ==> (IntentEdge(from, to) <==> from == InReview || from == Revising || from == Blocked)
    ensures to == Failed ==> (IntentEdge(from, to) <==> from == Planning || from == Building)
    ensures to == Blocked ==> (IntentEdge(from, to) <==> from != Unset && from != Blocked && !IntentTerminal(from))
    ensures to == Closed ==> (IntentEdge(from, to) <==> from != Unset && !IntentTerminal(from))
  {}

  predicate CanTransitionIntent(from: IntentPhase, to: IntentPhase) {
    from == to || IntentEdge(from, to)
  }

  predicate IntentTerminal(p: IntentPhase) {
    p.Merged? || p.Closed? || p.Failed?
  }

  /** The bounded log: the newest MAX_INTENT_PHASE_TIMES entries. */
  function Newest(times: seq<IntentPhaseTime>): seq<IntentPhaseTime> {
    if |times| > MAX_INTENT_PHASE_TIMES then times[|times| - MAX_INTENT_PHASE_TIMES..] else times
  }

  /** The phase of the latest entry that is not Blocked, Unset when there is none. */
  function LatestUnblocked(times: seq<IntentPhaseTime>): IntentPhase {
    if times == [] then Unset
    else if times[|times| - 1].phase != Blocked then times[|times| - 1].phase
    else LatestUnblocked(times[..|times| - 1])
  }

  function BlockedFrom(phase: IntentPhase, times: seq<IntentPhaseTime>): IntentPhase {
    if phase != Blocked then Unset else LatestUnblocked(times)
  }

  /** The recorded status, beside the unbounded log of every entry ever made. */
  datatype IntentStatus = IntentStatus(
    phase: IntentPhase, phaseTimes: seq<IntentPhaseTime>, completedAt: Option<Time>, log: seq<IntentPhaseTime>)
  {
    function Resume(): IntentPhase { BlockedFrom(phase, phaseTimes) }
  }

  function Advance(s: IntentStatus, to: IntentPhase, now: Time): IntentStatus {
    if !CanTransitionIntent(s.phase, to) || s.phase == to then s
    else
      var entry := IntentPhaseTime(to, now);
      IntentStatus(to, Newest(s.phaseTimes + [entry]), if IntentTerminal(to) then Some(now) else None, s.log + [entry])
  }

  /** The last n elements, or all of them when there are no more. */
  function LastOf<T>(s: seq<T>, n: nat): (r: seq<T>)
    ensures |r| == (if |s| < n then |s| else n) && forall i | 0 <= i < |r| :: r[i] == s[|s| - |r| + i]
  {
    if |s| > n then s[|s| - n..] else s
  }

  /** Entry k is not Blocked, and all later ones are. */
  predicate LastNotBlocked(times: seq<IntentPhaseTime>, k: nat)
    requires k < |times|
  {
    times[k].phase != Blocked && forall j | k < j < |times| :: times[j].phase == Blocked
  }

  lemma {:induction false} LatestIsLast(times: seq<IntentPhaseTime>, k: nat)
    requires k < |times| && LastNotBlocked(times, k)
    ensures LatestUnblocked(times) == times[k].phase
    decreases |times|
  {
    if k < |times| - 1 {
      LatestIsLast(times[..|times| - 1], k);
    }
  }

  class Intent {
    var phase: IntentPhase
    var phaseTimes: seq<IntentPhaseTime>
    var completedAt: Option<Time>
    var pullRequests: seq<IntentPullRequest>
    var previewBases: seq<IntentPreviewBase>
    ghost var log: seq<IntentPhaseTime>

    ghost function Status(): IntentStatus
      reads this
    {
      IntentStatus(phase, phaseTimes, completedAt, log)
    }

    constructor ()
      ensures Status() == NEW_INTENT && pullRequests == [] && previewBases == []
    {
      phase, phaseTimes, completedAt, log := Unset, [], None, [];
      pullRequests, previewBases := [], [];
    }

    method SetIntentPhase(to: IntentPhase, now: Time) returns (ok: bool)
      modifies `phase, `phaseTimes, `completedAt, `log
      ensures ok <==> old(phase) == to || IntentEdge(old(phase), to)
      ensures !ok || old(phase) == to ==> Status() == old(Status())
      ensures ok && old(phase) != to ==>
        var entry := IntentPhaseTime(to, now);
        && phase == to && log == old(log) + [entry]
        && phaseTimes == LastOf(old(phaseTimes) + [entry], 64)
        && completedAt == if to == Merged || to == Closed || to == Failed then Some(now) else None
      ensures Status() == Advance(old(Status()), to, now)
      ensures old(Faithful(Status())) ==> Faithful(Status())
    {
      AdvanceKeepsFaithful(Status(), to, now);
      if !CanTransitionIntent(phase, to) {
        return false;
      }
      if phase == to {
        return true;
      }
      phase := to;
      var times := phaseTimes + [IntentPhaseTime(to, now)];
      if |times| > MAX_INTENT_PHASE_TIMES {
        times := times[|times| - MAX_INTENT_PHASE_TIMES..];
      }
      phaseTimes := times;
      completedAt := if IntentTerminal(to) then Some(now) else None;
      log := log + [IntentPhaseTime(to, now)];
      ok := true;
    }

    method IntentBlockedFrom() returns (prior: IntentPhase)
      ensures prior == BlockedFrom(phase, phaseTimes)
      ensures phase != Blocked ==> prior == Unset
      ensures forall k | 0 <= k < |phaseTimes| && phase == Blocked && LastNotBlocked(phaseTimes, k) ::
        prior == phaseTimes[k].phase
      ensures Faithful(Status()) && phase == Blocked ==> |log| >= 2 && prior == log[|log| - 2].phase
    {
      if phase != Blocked {
        return Unset;
      }
      prior := Unset;
      for k := 0 to |phaseTimes|
        invariant prior == LatestUnblocked(phaseTimes[..k])
      {
        assert phaseTimes[..k + 1][..k] == phaseTimes[..k];
        if phaseTimes[k].phase != Blocked {
          prior := phaseTimes[k].phase;
        }
      }
      assert phaseTimes[..|phaseTimes|] == phaseTimes;
      forall k | 0 <= k < |phaseTimes| && LastNotBlocked(phaseTimes, k) ensures prior == phaseTimes[k].phase {
        LatestIsLast(phaseTimes, k);
      }
      if Faithful(Status()) {
        BlockedFromIsThePhaseBefore(Status());
      }
    }
  }

  // ---- every run of the setter ----

  const NEW_INTENT := IntentStatus(Unset, [], None, [])

  datatype Call = Call(to: IntentPhase, now: Time)

  function Run(calls: seq<Call>): IntentStatus {
    if calls == [] then NEW_INTENT
    else
      var last := calls[|calls| - 1];
      Advance(Run(calls[..|calls| - 1]), last.to, last.now)
  }

  function PhaseBefore(log: seq<IntentPhaseTime>, k: nat): IntentPhase
    requires k <= |log|
  {
    if k == 0 then Unset else log[k - 1].phase
  }

  predicate EntryAllowed(log: seq<IntentPhaseTime>, k: nat)
    requires k < |log|
  {
    IntentEdge(PhaseBefore(log, k), log[k].phase)
  }

  /** What every reachable status keeps. */
  ghost predicate Faithful(s: IntentStatus) {
    && NewestPart(s.phaseTimes, s.log)
    && s.phase == PhaseBefore(s.log, |s.log|)
    && s.completedAt == (if IntentTerminal(s.phase) then Some(s.log[|s.log| - 1].at) else None)
    && forall k | 0 <= k < |s.log| :: EntryAllowed(s.log, k)
  }

  /** The stored log is the newest part of the whole one, as much of it as fits. */
  ghost predicate NewestPart(times: seq<IntentPhaseTime>, log: seq<IntentPhaseTime>) {
    && |times| == (if |log| <= MAX_INTENT_PHASE_TIMES then |log| else MAX_INTENT_PHASE_TIMES)
    && times == log[|log| - |times|..]
  }

  lemma NewestPartGrows(times: seq<IntentPhaseTime>, log: seq<IntentPhaseTime>, entry: IntentPhaseTime)
    requires NewestPart(times, log)
    ensures NewestPart(Newest(times + [entry]), log + [entry])
  {
    var m, n := |times|, |log|;
    if n < MAX_INTENT_PHASE_TIMES {
      assert times == log[0..] == log;
      assert (log + [entry])[0..] == log + [entry];
    } else {
      assert (times + [entry])[1..] == times[1..] + [entry];
      assert times[1..] == log[n - m..][1..] == log[n - m + 1..];
      assert (log + [entry])[n + 1 - m..] == log[n - m + 1..] + [entry];
    }
  }

  lemma AdvanceKeepsFaithful(s: IntentStatus, to: IntentPhase, now: Time)
    ensures Faithful(s) ==> Faithful(Advance(s, to, now))
  {
    hide Newest, NewestPart, IntentEdge;
    var t := Advance(s, to, now);
    if Faithful(s) && t != s {
      var entry := IntentPhaseTime(to, now);
      NewestPartGrows(s.phaseTimes, s.log, entry);
      Snoc(s.log, entry);
      EntriesSnoc(s.log, entry);
    }
  }

  lemma EntriesSnoc(log: seq<IntentPhaseTime>, entry: IntentPhaseTime)
    requires forall k | 0 <= k < |log| :: EntryAllowed(log, k)
    requires IntentEdge(PhaseBefore(log, |log|), entry.phase)
    ensures forall k | 0 <= k < |log + [entry]| :: EntryAllowed(log + [entry], k)
  {
    hide IntentEdge;
    Snoc(log, entry);
    forall k | 0 <= k < |log + [entry]| ensures EntryAllowed(log + [entry], k) {
      assert PhaseBefore(log + [entry], k) == PhaseBefore(log, k);
      assert k < |log| ==> EntryAllowed(log, k) && (log + [entry])[k] == log[k];
    }
  }

  lemma {:induction false} RunIsFaithful(calls: seq<Call>)
    ensures Faithful(Run(calls))
  {
    if calls != [] {
      var last := calls[|calls| - 1];
      RunIsFaithful(calls[..|calls| - 1]);
      AdvanceKeepsFaithful(Run(calls[..|calls| - 1]), last.to, last.now);
    }
  }

  lemma LatestUnblockedAtBlock(times: seq<IntentPhaseTime>)
    requires |times| >= 2 && times[|times| - 1].phase == Blocked && times[|times| - 2].phase != Blocked
    ensures LatestUnblocked(times) == times[|times| - 2].phase
  {}

  predicate Resumable(p: IntentPhase) {
    p.Pending? || p.Planning? || p.AwaitingApproval? || p.Building? || p.InReview? || p.Revising?
  }

  /** The truncated log answers as the full one does: the entry just before the block. */
  lemma BlockedFromIsThePhaseBefore(s: IntentStatus)
    requires Faithful(s) && s.phase == Blocked
    ensures |s.log| >= 2
    ensures s.Resume() == BlockedFrom(s.phase, s.log) == s.log[|s.log| - 2].phase
    ensures Resumable(s.Resume()) && IntentEdge(Blocked, s.Resume())
  {
    hide LatestUnblocked;
    assert EntryAllowed(s.log, |s.log| - 1);
    LatestUnblockedAtBlock(s.log);
    LatestUnblockedAtBlock(s.phaseTimes);
  }

  lemma ReachableBlockedResumes(calls: seq<Call>)
    requires Run(calls).phase == Blocked
    ensures var s := Run(calls);
      && |s.log| >= 2
      && s.Resume() == BlockedFrom(s.phase, s.log) == s.log[|s.log| - 2].phase
      && Resumable(s.Resume())
      && forall now :: Advance(s, s.Resume(), now).phase == s.Resume()
  {
    RunIsFaithful(calls);
    BlockedFromIsThePhaseBefore(Run(calls));
  }

  /** Merged and Closed are final: no later call changes anything at all. */
  lemma {:induction false} MergedAndClosedAbsorb(calls: seq<Call>, more: seq<Call>)
    requires Run(calls).phase == Merged || Run(calls).phase == Closed
    ensures Run(calls + more) == Run(calls)
  {
    if more == [] {
      assert calls + more == calls;
    } else {
      MergedAndClosedAbsorb(calls, more[..|more| - 1]);
      assert (calls + more)[..|calls + more| - 1] == calls + more[..|more| - 1];
    }
  }

  // ---- runs and the table, blocks aside ----

  /** The log with the Blocked entries and the re-entries that resume after them deleted. */
  function Progress(log: seq<IntentPhaseTime>): seq<IntentPhase> {
    if log == [] then []
    else
      var n := |log|;
      var done := Progress(log[..n - 1]);
      var p := log[n - 1].phase;
      if p == Blocked then done
      else if PhaseBefore(log, n - 1) == Blocked && done != [] && done[|done| - 1] == p then done
      else done + [p]
  }

  function Previous(path: seq<IntentPhase>, i: nat): IntentPhase
    requires i <= |path|
  {
    if i == 0 then Unset else path[i - 1]
  }

  /** A walk of the edge table from the new Intent. Only a last step into
      Merged may be off the table: a human may merge during a block. */
  ghost predicate FollowsTable(path: seq<IntentPhase>) {
    forall i | 0 <= i < |path| :: StepAllowed(path, i)
  }

  predicate StepAllowed(path: seq<IntentPhase>, i: nat)
    requires i < |path|
  {
    IntentEdge(Previous(path, i), path[i]) || (i > 0 && i == |path| - 1 && path[i] == Merged)
  }

  /** What a caller can test before a call: a block is left to where it was entered, to
      a phase the table allows from there, or to Merged. */
  predicate ExitAllowed(s: IntentStatus, to: IntentPhase) {
    s.phase == Blocked && IntentEdge(Blocked, to) ==> to == s.Resume() || IntentEdge(s.Resume(), to) || to == Merged
  }

  ghost predicate ExitsAllowed(calls: seq<Call>) {
    calls != [] ==>
      && ExitsAllowed(calls[..|calls| - 1])
      && ExitAllowed(Run(calls[..|calls| - 1]), calls[|calls| - 1].to)
  }

  /** No Blocked is left in the progress, and it ends where a block would resume to. */
  ghost predicate EndsUnblocked(s: IntentStatus) {
    var path := Progress(s.log);
    Blocked !in path && LatestUnblocked(s.log) == Previous(path, |path|)
  }

  /** One more step of a walk is allowed or not by itself: later steps neither cure nor spoil it. */
  lemma ExtendTableWalk(path: seq<IntentPhase>, to: IntentPhase)
    requires Previous(path, |path|) != Merged
    ensures FollowsTable(path + [to]) <==>
            FollowsTable(path) && (IntentEdge(Previous(path, |path|), to) || (path != [] && to == Merged))
  {
    var longer := path + [to];
    assert StepAllowed(longer, |path|) <==> IntentEdge(Previous(path, |path|), to) || (path != [] && to == Merged);
    forall i | 0 <= i < |path| ensures StepAllowed(longer, i) <==> StepAllowed(path, i) {
      assert longer[i] == path[i] && Previous(longer, i) == Previous(path, i);
    }
    if FollowsTable(longer) {
      forall i | 0 <= i < |path| ensures StepAllowed(path, i) {
        assert StepAllowed(longer, i);
      }
    }
  }

  lemma ProgressSnoc(log: seq<IntentPhaseTime>, entry: IntentPhaseTime)
    ensures var done := Progress(log);
      Progress(log + [entry])
      == if entry.phase == Blocked then done
         else if PhaseBefore(log, |log|) == Blocked && done != [] && done[|done| - 1] == entry.phase then done
         else done + [entry.phase]
  {
    Snoc(log, entry);
    assert PhaseBefore(log + [entry], |log|) == PhaseBefore(log, |log|);
  }

  lemma LatestIsCurrent(log: seq<IntentPhaseTime>)
    ensures PhaseBefore(log, |log|) != Blocked ==> LatestUnblocked(log) == PhaseBefore(log, |log|)
  {}

  lemma LatestSnoc(log: seq<IntentPhaseTime>, entry: IntentPhaseTime)
    ensures LatestUnblocked(log + [entry]) == if entry.phase != Blocked then entry.phase else LatestUnblocked(log)
  {
    Snoc(log, entry);
  }

  lemma ProgressStep(s: IntentStatus, to: IntentPhase, now: Time)
    requires s.phase == PhaseBefore(s.log, |s.log|) && EndsUnblocked(s) && IntentEdge(s.phase, to)
    requires s.phase == Blocked ==> Resumable(LatestUnblocked(s.log)) && s.Resume() == LatestUnblocked(s.log)
    ensures var t := Advance(s, to, now);
      && EndsUnblocked(t)
      && (FollowsTable(Progress(t.log)) <==> FollowsTable(Progress(s.log)) && ExitAllowed(s, to))
  {
    hide Progress, LatestUnblocked, FollowsTable, Newest;
    var path := Progress(s.log);
    ProgressSnoc(s.log, IntentPhaseTime(to, now));
    LatestSnoc(s.log, IntentPhaseTime(to, now));
    LatestIsCurrent(s.log);
    Snoc(path, to);
    if to != Blocked && !(s.phase == Blocked && to == s.Resume()) {
      ExtendTableWalk(path, to);
    }
  }

  /** Blocks aside, a run walks the table exactly when every exit from a block is allowed. */
  lemma {:induction false} ProgressOfRun(calls: seq<Call>)
    ensures EndsUnblocked(Run(calls))
    ensures FollowsTable(Progress(Run(calls).log)) <==> ExitsAllowed(calls)
  {
    if calls != [] {
      var n := |calls| - 1;
      var init, last := calls[..n], calls[n];
      ProgressOfRun(init);
      RunIsFaithful(init);
      if IntentEdge(Run(init).phase, last.to) {
        if Run(init).phase == Blocked {
          BlockedFromIsThePhaseBefore(Run(init));
        }
        ProgressStep(Run(init), last.to, last.now);
      }
    }
  }

  /** Every accepted exit from Blocked to a non-terminal phase goes to the
      phase IntentBlockedFrom names. */
  ghost predicate ResumesWhereBlocked(calls: seq<Call>) {
    calls != [] ==>
      var before, last := Run(calls[..|calls| - 1]), calls[|calls| - 1];
      && ResumesWhereBlocked(calls[..|calls| - 1])
      && (before.phase == Blocked && IntentEdge(Blocked, last.to) && !IntentTerminal(last.to)
          ==> last.to == before.Resume())
  }

  lemma {:induction false} ResumingIsAllowed(calls: seq<Call>)
    requires ResumesWhereBlocked(calls)
    ensures ExitsAllowed(calls)
  {
    if calls != [] {
      var init := calls[..|calls| - 1];
      ResumingIsAllowed(init);
      if Run(init).phase == Blocked {
        RunIsFaithful(init);
        BlockedFromIsThePhaseBefore(Run(init));
      }
    }
  }

  function Count(path: seq<IntentPhase>, p: IntentPhase): nat {
    if path == [] then 0 else Count(path[..|path| - 1], p) + (if path[|path| - 1] == p then 1 else 0)
  }

  lemma {:induction false} StagesAreCounted(path: seq<IntentPhase>)
    requires FollowsTable(path) && Blocked !in path
    ensures Count(path, Building) <= Count(path, AwaitingApproval) <= Count(path, Planning)
    ensures path != [] && path[|path| - 1] == AwaitingApproval ==> Count(path, Building) < Count(path, AwaitingApproval)
    ensures path != [] && path[|path| - 1] == Planning ==> Count(path, AwaitingApproval) < Count(path, Planning)
  {
    if path != [] {
      var n := |path| - 1;
      assert path[n] in path;
      assert n > 0 ==> path[n - 1] in path;
      assert StepAllowed(path, n);
      forall i | 0 <= i < n ensures StepAllowed(path[..n], i) {
        assert StepAllowed(path, i);
      }
      StagesAreCounted(path[..n]);
    }
  }

  lemma BuildHasApproval(path: seq<IntentPhase>, i: nat)
    requires FollowsTable(path) && Blocked !in path
    requires i < |path| && path[i] == Building
    ensures i >= 2 && path[i - 1] == AwaitingApproval && path[i - 2] == Planning
  {
    hide IntentEdge;
    assert StepAllowed(path, i);
    IntentEdgesByTarget(Previous(path, i), Building);
    assert i > 0 && path[i - 1] in path;
    assert StepAllowed(path, i - 1);
    IntentEdgesByTarget(Previous(path, i - 1), AwaitingApproval);
    assert i > 1 && path[i - 2] in path;
  }

  /** No build without its own approval, and no approval without its own plan. */
  lemma {:induction false} BuildsAreApproved(calls: seq<Call>)
    requires ExitsAllowed(calls)
    ensures FollowsTable(Progress(Run(calls).log))
    ensures var path := Progress(Run(calls).log);
      forall i | 0 <= i < |path| && path[i] == Building ::
        i >= 2 && path[i - 1] == AwaitingApproval && path[i - 2] == Planning
    ensures var path := Progress(Run(calls).log);
      Count(path, Building) <= Count(path, AwaitingApproval) <= Count(path, Planning)
  {
    ProgressOfRun(calls);
    var path := Progress(Run(calls).log);
    StagesAreCounted(path);
    forall i | 0 <= i < |path| && path[i] == Building
      ensures i >= 2 && path[i - 1] == AwaitingApproval && path[i - 2] == Planning
    {
      BuildHasApproval(path, i);
    }
  }

  /** One more call of any run, told by the table: what is accepted, and what it records. */
  lemma OneMoreCall(calls: seq<Call>, to: IntentPhase, now: Time)
    ensures var s, t := Run(calls), Run(calls + [Call(to, now)]);
      && (t.phase == to <==> s.phase == to || IntentEdge(s.phase, to))
      && (t.phase != to || s.phase == to ==> t == s)
      && (t.phase == to && s.phase != to ==>
            && t.log == s.log + [IntentPhaseTime(to, now)]
            && t.completedAt == if to == Merged || to == Closed || to == Failed then Some(now) else None)
  {
    hide Run, Newest;
    RunSnoc(calls, to, now);
  }

  lemma RunSnoc(calls: seq<Call>, to: IntentPhase, now: Time)
    ensures Run(calls + [Call(to, now)]) == Advance(Run(calls), to, now)
  {
    Snoc(calls, Call(to, now));
  }

  /** The table alone does not give this: it resumes a block anywhere. */
  lemma TableAloneSkipsApproval()
    ensures exists calls ::
      && Run(calls).phase == Building
      && Progress(Run(calls).log) == [Pending, Building]
      && !ExitsAllowed(calls)
  {
    hide Run, Progress, LatestUnblocked;
    var pending, blocked := IntentPhaseTime(Pending, 0), IntentPhaseTime(Blocked, 1);
    var building := IntentPhaseTime(Building, 2);
    var c1 := [Call(Pending, 0)];
    var c2 := c1 + [Call(Blocked, 1)];
    var c3 := c2 + [Call(Building, 2)];
    FirstCall();
    RunSnoc(c1, Blocked, 1);
    RunSnoc(c2, Building, 2);
    assert Run(c2).log == Run(c2).phaseTimes == [pending] + [blocked];
    assert Run(c3).log == ([pending] + [blocked]) + [building];
    ProgressSnoc([pending], blocked);
    ProgressSnoc([pending] + [blocked], building);
    LatestUnblockedAtBlock([pending] + [blocked]);
    Snoc(c2, Call(Building, 2));
  }

  lemma FirstCall()
    ensures var pending := IntentPhaseTime(Pending, 0);
      && Run([Call(Pending, 0)]) == IntentStatus(Pending, [pending], None, [pending])
      && Progress([pending]) == [Pending]
  {
    assert [Call(Pending, 0)][..0] == [];
    assert [IntentPhaseTime(Pending, 0)][..0] == [];
  }
}
