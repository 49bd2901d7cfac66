/** The Finding phase machine: its edge table, the setter that keeps an
    unbounded history, and the retry readers. */
module FindingPhases {
  import opened Text

  /** `Unset` is the empty phase of a new Finding. */
  datatype Phase =
    | Unset | Opened | Enhanced | Investigating | Queued | AwaitingApproval
    | Remediating | InReview | Remediated | Failed | Dismissed | HandedOff

  type Time = int

  datatype PhaseTime = PhaseTime(phase: Phase, at: Time)

  /** The edge table. */
  predicate Edge(from: Phase, to: Phase) {
    match from
    case Unset => to.Opened?
    case Opened => to.Enhanced? || to.HandedOff?
    case Enhanced => to.Investigating? || to.HandedOff?
    case Investigating =>
      || to.Enhanced? || to.Queued? || to.AwaitingApproval?
      || to.Dismissed? || to.HandedOff? || to.Failed?
    case Queued => to.Remediating? || to.HandedOff?
    case AwaitingApproval => to.Queued? || to.HandedOff?
    case Remediating => to.Queued? || to.InReview? || to.HandedOff? || to.Failed?
    case InReview => to.Remediated? || to.Failed? || to.HandedOff?
    case Remediated => false
    case Failed => to.Enhanced? || to.Queued?
    case Dismissed => to.HandedOff?
    case HandedOff => to.Queued?
  }

  /** The table read by target: who may enter each phase. */
  lemma EdgesByTarget(from: Phase, to: Phase)
    ensures to == Unset ==> !Edge(from, to)
    ensures to == Opened ==> (Edge(from, to) <==> from == Unset)
    ensures to == Enhanced ==> (Edge(from, to) <==> from == Opened || from == Investigating || from == Failed)
    ensures to == Investigating ==> (Edge(from, to) <==> from == Enhanced)
    ensures to == AwaitingApproval ==> (Edge(from, to) <==> from == Investigating)
    ensures to == Queued ==> (Edge(from, to) <==>
      from == Investigating || from == AwaitingApproval || from == Remediating || from == Failed || from == HandedOff)
    ensures to == Remediating ==> (Edge(from, to) <==> from == Queued)
    ensures to == InReview ==> (Edge(from, to) <==> from == Remediating)
    ensures to == Remediated ==> (Edge(from, to) <==> from == InReview)
    ensures to == Dismissed ==> (Edge(from, to) <==> from == Investigating)
    ensures to == Failed ==> (Edge(from, to) <==> from == Investigating || from == Remediating || from == InReview)
    ensures to == HandedOff ==> (Edge(from, to) <==> from == Dismissed || (from != Unset && !Terminal(from)))
  {}

  predicate CanTransition(from: Phase, to: Phase) {
    from == to || Edge(from, to)
  }

  predicate Terminal(p: Phase) {
    p.Remediated? || p.Failed? || p.Dismissed? || p.HandedOff?
  }

  /** The Finding as the phase code reads it: the status and the recorded spec.retry. */
  datatype FindingState = FindingState(
    phase: Phase, phaseTimes: seq<PhaseTime>, completedAt: Option<Time>, retry: Option<Time>)

  /** The phase of the latest entry that is not Failed, Unset when there is none. */
  function LatestUnfailed(times: seq<PhaseTime>): Phase {
    if times == [] then Unset
    else if times[|times| - 1].phase != Failed then times[|times| - 1].phase
    else LatestUnfailed(times[..|times| - 1])
  }

  function Recovery(prior: Phase): Phase {
    match prior
    case Investigating => Enhanced
    case Remediating => Queued
    case InReview => Queued
    case _ => Unset
  }

  function RetryTargetOf(f: FindingState): Phase {
    if f.phase != Failed then Unset else Recovery(LatestUnfailed(f.phaseTimes))
  }

  predicate RetryRequested(f: FindingState) {
    f.retry.Some? && (f.completedAt.None? || f.retry.value > f.completedAt.value)
  }

  function Moved(f: FindingState, to: Phase, now: Time): FindingState {
    if !CanTransition(f.phase, to) || f.phase == to then f
    else f.(
      phase := to,
      phaseTimes := f.phaseTimes + [PhaseTime(to, now)],
      completedAt := if Terminal(to) then Some(now) else None)
  }

  /** Entry k is not Failed, and all later ones are. */
  predicate LastNotFailed(times: seq<PhaseTime>, k: nat)
    requires k < |times|
  {
    times[k].phase != Failed && forall j | k < j < |times| :: times[j].phase == Failed
  }

  lemma {:induction false} LatestIsLast(times: seq<PhaseTime>, k: nat)
    requires k < |times| && LastNotFailed(times, k)
    ensures LatestUnfailed(times) == times[k].phase
    decreases |times|
  {
    if k < |times| - 1 {
      LatestIsLast(times[..|times| - 1], k);
    }
  }

  class Finding {
    var phase: Phase
    var phaseTimes: seq<PhaseTime>
    var completedAt: Option<Time>
    var retry: Option<Time>

    ghost function State(): FindingState
      reads this
    {
      FindingState(phase, phaseTimes, completedAt, retry)
    }

    constructor ()
      ensures State() == NEW_FINDING
    {
      phase, phaseTimes, completedAt, retry := Unset, [], None, None;
    }

    method SetPhase(to: Phase, now: Time) returns (ok: bool)
      modifies `phase, `phaseTimes, `completedAt
      ensures ok <==> old(phase) == to || Edge(old(phase), to)
      ensures !ok || old(phase) == to ==> State() == old(State())
      ensures ok && old(phase) != to ==>
        && phase == to && phaseTimes == old(phaseTimes) + [PhaseTime(to, now)]
        && completedAt
           == if to == Remediated || to == Failed || to == Dismissed || to == HandedOff then Some(now) else None
      ensures State() == Moved(old(State()), to, now)
      ensures old(Recorded(State())) ==> Recorded(State())
    {
      MoveKeepsRecorded(State(), to, now);
      if !CanTransition(phase, to) {
        return false;
      }
      if phase == to {
        return true;
      }
      phase := to;
      phaseTimes := phaseTimes + [PhaseTime(to, now)];
      completedAt := if Terminal(to) then Some(now) else None;
      ok := true;
    }

    method RetryTarget() returns (target: Phase)
      ensures target == RetryTargetOf(State())
      ensures phase != Failed ==> target == Unset
      ensures forall k | 0 <= k < |phaseTimes| && phase == Failed && LastNotFailed(phaseTimes, k) ::
        var before := phaseTimes[k].phase;
        target == if before == Investigating then Enhanced
                  else if before == Remediating || before == InReview then Queued
                  else Unset
      ensures Recorded(State()) && phase == Failed ==>
                |phaseTimes| >= 2 && target == Recovery(phaseTimes[|phaseTimes| - 2].phase) != Unset
    {
      if phase != Failed {
        return Unset;
      }
      var prior := Unset;
      for k := 0 to |phaseTimes|
        invariant prior == LatestUnfailed(phaseTimes[..k])
      {
        assert phaseTimes[..k + 1][..k] == phaseTimes[..k];
        if phaseTimes[k].phase == Failed {
          continue;
        }
        prior := phaseTimes[k].phase;
      }
      assert phaseTimes[..|phaseTimes|] == phaseTimes;
      forall k | 0 <= k < |phaseTimes| && LastNotFailed(phaseTimes, k) ensures prior == phaseTimes[k].phase {
        LatestIsLast(phaseTimes, k);
      }
      if Recorded(State()) {
        FailedIsRetryable(State());
      }
      target := Recovery(prior);
    }
  }

  // ---- every run ----

  const NEW_FINDING := FindingState(Unset, [], None, None)

  /** A call of the setter, or a human recording spec.retry at the current time. */
  datatype Event = Move(to: Phase, now: Time) | Retry(now: Time)

  function Step(f: FindingState, e: Event): FindingState {
    match e
    case Move(to, now) => Moved(f, to, now)
    case Retry(now) => f.(retry := Some(now))
  }

  function Run(events: seq<Event>): FindingState {
    if events == [] then NEW_FINDING else Step(Run(events[..|events| - 1]), events[|events| - 1])
  }

  function PhaseBefore(times: seq<PhaseTime>, k: nat): Phase
    requires k <= |times|
  {
    if k == 0 then Unset else times[k - 1].phase
  }

  predicate EntryAllowed(times: seq<PhaseTime>, k: nat)
    requires k < |times|
  {
    Edge(PhaseBefore(times, k), times[k].phase)
  }

  /** What every reachable Finding keeps: the history is a walk of the table that
      ends in the phase, and completedAt is the time a terminal phase was entered. */
  ghost predicate Recorded(f: FindingState) {
    && f.phase == PhaseBefore(f.phaseTimes, |f.phaseTimes|)
    && f.completedAt == (if Terminal(f.phase) then Some(f.phaseTimes[|f.phaseTimes| - 1].at) else None)
    && forall k | 0 <= k < |f.phaseTimes| :: EntryAllowed(f.phaseTimes, k)
  }

  lemma MoveKeepsRecorded(f: FindingState, to: Phase, now: Time)
    ensures Recorded(f) ==> Recorded(Moved(f, to, now))
  {
    var g := Moved(f, to, now);
    if Recorded(f) && g != f {
      forall k | 0 <= k < |g.phaseTimes| ensures EntryAllowed(g.phaseTimes, k) {
        assert k < |f.phaseTimes| ==> EntryAllowed(f.phaseTimes, k);
      }
    }
  }

  lemma {:induction false} RunIsRecorded(events: seq<Event>)
    ensures Recorded(Run(events))
  {
    if events != [] {
      var e := events[|events| - 1];
      RunIsRecorded(events[..|events| - 1]);
      if e.Move? {
        MoveKeepsRecorded(Run(events[..|events| - 1]), e.to, e.now);
      }
    }
  }

  lemma FailedIsRetryable(f: FindingState)
    requires Recorded(f) && f.phase == Failed
    ensures |f.phaseTimes| >= 2
    ensures RetryTargetOf(f) == Recovery(f.phaseTimes[|f.phaseTimes| - 2].phase)
    ensures var before := f.phaseTimes[|f.phaseTimes| - 2].phase;
      before == Investigating || before == Remediating || before == InReview
    ensures RetryTargetOf(f) != Unset && Edge(Failed, RetryTargetOf(f))
  {
    hide Edge;
    var times := f.phaseTimes;
    var n := |times|;
    assert EntryAllowed(times, n - 1);
    EdgesByTarget(PhaseBefore(times, n - 1), Failed);
    EdgesByTarget(Failed, Recovery(PhaseBefore(times, n - 1)));
    assert times[..n - 1][n - 2] == times[n - 2];
    assert LatestUnfailed(times[..n - 1]) == times[n - 2].phase;
  }

  /** A failed Finding can always be retried, into a phase the table allows,
      chosen by the entry just before the failure however many failures came before. */
  lemma ReachableFailureIsRetryable(events: seq<Event>)
    requires Run(events).phase == Failed
    ensures var f := Run(events);
      && |f.phaseTimes| >= 2
      && var before := f.phaseTimes[|f.phaseTimes| - 2].phase;
      && (before == Investigating || before == Remediating || before == InReview)
      && RetryTargetOf(f) == (if before == Investigating then Enhanced else Queued)
      && forall now :: Moved(f, RetryTargetOf(f), now).phase == RetryTargetOf(f)
  {
    RunIsRecorded(events);
    FailedIsRetryable(Run(events));
  }

  // ---- how long a history can get ----

  /** Every edge but a retry revert and an exit from a terminal phase raises the rank. */
  function Rank(p: Phase): nat {
    match p
    case Unset => 0
    case Opened => 1
    case Enhanced => 2
    case Investigating => 3
    case AwaitingApproval => 4
    case Queued => 5
    case Remediating => 6
    case InReview => 7
    case _ => 8
  }

  predicate Revert(from: Phase, to: Phase) {
    (from.Investigating? && to.Enhanced?) || (from.Remediating? && to.Queued?)
  }

  function Reverts(times: seq<PhaseTime>): nat {
    if times == [] then 0
    else
      var n := |times| - 1;
      Reverts(times[..n]) + if Revert(PhaseBefore(times, n), times[n].phase) then 1 else 0
  }

  function TerminalExits(times: seq<PhaseTime>): nat {
    if times == [] then 0
    else
      var n := |times| - 1;
      TerminalExits(times[..n]) + if Terminal(PhaseBefore(times, n)) then 1 else 0
  }

  lemma {:induction false} WalkLength(times: seq<PhaseTime>)
    requires forall k | 0 <= k < |times| :: EntryAllowed(times, k)
    ensures |times| <= Rank(PhaseBefore(times, |times|)) + 2 * Reverts(times) + 7 * TerminalExits(times)
  {
    if times != [] {
      var n := |times| - 1;
      assert EntryAllowed(times, n);
      forall k | 0 <= k < n ensures EntryAllowed(times[..n], k) {
        assert EntryAllowed(times, k);
      }
      WalkLength(times[..n]);
      assert PhaseBefore(times[..n], n) == PhaseBefore(times, n);
    }
  }

  lemma HistoryIsBounded(events: seq<Event>)
    ensures var times := Run(events).phaseTimes;
      |times| <= 8 + 2 * Reverts(times) + 7 * TerminalExits(times)
  {
    RunIsRecorded(events);
    WalkLength(Run(events).phaseTimes);
  }

  /** The run reached p in n entries, r of them reverts and t of them exits from a terminal phase. */
  ghost predicate Reached(events: seq<Event>, p: Phase, n: nat, r: nat, t: nat) {
    var f := Run(events);
    && f.phase == p == PhaseBefore(f.phaseTimes, |f.phaseTimes|)
    && |f.phaseTimes| == n && Reverts(f.phaseTimes) == r && TerminalExits(f.phaseTimes) == t
  }

  lemma Continue(events: seq<Event>, from: Phase, to: Phase, n: nat, r: nat, t: nat) returns (more: seq<Event>)
    requires Reached(events, from, n, r, t) && Edge(from, to)
    ensures Reached(more, to, n + 1, if Revert(from, to) then r + 1 else r, if Terminal(from) then t + 1 else t)
  {
    hide Run, Reverts, TerminalExits;
    more := events + [Move(to, 0)];
    RunOneMore(events, Move(to, 0));
    CountsSnoc(Run(events).phaseTimes, PhaseTime(to, 0));
  }

  lemma CountsSnoc(times: seq<PhaseTime>, entry: PhaseTime)
    ensures var longer, from := times + [entry], PhaseBefore(times, |times|);
      && PhaseBefore(longer, |longer|) == entry.phase && |longer| == |times| + 1
      && Reverts(longer) == Reverts(times) + (if Revert(from, entry.phase) then 1 else 0)
      && TerminalExits(longer) == TerminalExits(times) + if Terminal(from) then 1 else 0
  {
    Snoc(times, entry);
    assert PhaseBefore(times + [entry], |times|) == PhaseBefore(times, |times|);
  }

  lemma {:induction false} Probing(r: nat) returns (events: seq<Event>)
    ensures Reached(events, Investigating, 3 + 2 * r, r, 0)
  {
    if r == 0 {
      events := Continue([], Unset, Opened, 0, 0, 0);
      events := Continue(events, Opened, Enhanced, 1, 0, 0);
      events := Continue(events, Enhanced, Investigating, 2, 0, 0);
    } else {
      events := Probing(r - 1);
      events := Continue(events, Investigating, Enhanced, 1 + 2 * r, r - 1, 0);
      events := Continue(events, Enhanced, Investigating, 2 + 2 * r, r, 0);
    }
  }

  lemma ToReview(events: seq<Event>, n: nat, r: nat, t: nat) returns (more: seq<Event>)
    requires Reached(events, Investigating, n, r, t)
    ensures Reached(more, InReview, n + 4, r, t)
  {
    more := Continue(events, Investigating, AwaitingApproval, n, r, t);
    more := Continue(more, AwaitingApproval, Queued, n + 1, r, t);
    more := Continue(more, Queued, Remediating, n + 2, r, t);
    more := Continue(more, Remediating, InReview, n + 3, r, t);
  }

  lemma {:induction false} Retrying(r: nat, t: nat) returns (events: seq<Event>)
    ensures Reached(events, InReview, 7 + 2 * r + 7 * t, r, t)
  {
    if t == 0 {
      events := Probing(r);
      events := ToReview(events, 3 + 2 * r, r, 0);
    } else {
      events := Retrying(r, t - 1);
      var n := 2 * r + 7 * t;
      events := Continue(events, InReview, Failed, n, r, t - 1);
      events := Continue(events, Failed, Enhanced, n + 1, r, t - 1);
      events := Continue(events, Enhanced, Investigating, n + 2, r, t);
      events := ToReview(events, n + 3, r, t);
    }
  }

  /** The bound is attained for every number of reverts and of terminal exits. */
  lemma BoundIsAttained(r: nat, t: nat)
    ensures exists events, n :: n == 8 + 2 * r + 7 * t && Reached(events, Remediated, n, r, t)
  {
    var events := Retrying(r, t);
    events := Continue(events, InReview, Remediated, 7 + 2 * r + 7 * t, r, t);
  }

  // ---- when a recorded retry is actionable, and how often it is consumed ----

  /** The time of the latest entry. */
  function LastStamp(f: FindingState): Time
    requires f.phaseTimes != []
  {
    f.phaseTimes[|f.phaseTimes| - 1].at
  }

  /** In every run a recorded retry is actionable in each phase that is not terminal, and
      in a terminal one exactly when it was recorded after the time that phase was entered. */
  lemma {:induction false} WhenRetryIsRequested(events: seq<Event>)
    ensures var f := Run(events);
      && (Terminal(f.phase) ==> f.phaseTimes != [])
      && (RetryRequested(f) <==> f.retry.Some? && (Terminal(f.phase) ==> f.retry.value > LastStamp(f)))
  {
    RunIsRecorded(events);
  }

  /** A failure leaves a recorded retry actionable exactly when it is stamped before the retry. */
  lemma FailureOutdatesRetry(f: FindingState, now: Time)
    requires Edge(f.phase, Failed) && f.retry.Some?
    ensures RetryRequested(Moved(f, Failed, now)) <==> now < f.retry.value
  {}

  /** Event k acts on the retry: the setter leaves Failed while the retry is actionable. */
  ghost predicate Consumes(events: seq<Event>, k: nat)
    requires k < |events|
  {
    LeavesFailed(events, k) && RetryRequested(Run(events[..k]))
  }

  ghost predicate LeavesFailed(events: seq<Event>, k: nat)
    requires k < |events|
  {
    Run(events[..k]).phase == Failed && events[k].Move? && Edge(Failed, events[k].to)
  }

  ghost predicate Fails(events: seq<Event>, m: nat)
    requires m < |events|
  {
    events[m].Move? && events[m].to == Failed && Edge(Run(events[..m]).phase, Failed)
  }

  /** The failure that event j leaves is the one event m entered. */
  ghost predicate FailedSince(events: seq<Event>, m: nat, j: nat)
    requires m < j < |events|
  {
    Fails(events, m) && forall n | m < n <= j :: Run(events[..n]).phase == Failed
  }

  ghost predicate NoRetryBetween(events: seq<Event>, i: nat, j: nat)
    requires j <= |events|
  {
    forall k | i < k < j :: events[k].Move?
  }

  lemma {:induction false} RetryIsKept(events: seq<Event>, i: nat, j: nat)
    requires i < j <= |events| && events[i].Move? && NoRetryBetween(events, i, j)
    ensures Run(events[..j]).retry == Run(events[..i]).retry
    decreases j
  {
    assert events[..j][..j - 1] == events[..j - 1];
    if j > i + 1 {
      RetryIsKept(events, i, j - 1);
    }
  }

  /** A failure found at j, after the Finding was in another phase at i, was entered by one
      event between, whose time is the completion time still recorded. */
  lemma {:induction false} FailureHasAStart(events: seq<Event>, i: nat, j: nat) returns (m: nat)
    requires i <= j < |events| && Run(events[..i]).phase != Failed && Run(events[..j]).phase == Failed
    ensures i <= m < j && FailedSince(events, m, j) && Run(events[..j]).completedAt == Some(events[m].now)
    decreases j
  {
    assert events[..j][..j - 1] == events[..j - 1];
    if Run(events[..j - 1]).phase == Failed {
      m := FailureHasAStart(events, i, j - 1);
    } else {
      m := j - 1;
    }
  }

  lemma OneStart(events: seq<Event>, m: nat, n: nat, j: nat)
    requires m < j < |events| && n < j && FailedSince(events, m, j) && FailedSince(events, n, j)
    ensures m == n
  {
    assert Run(events[..if m < n then n else m]).phase == Failed || m == n;
  }

  /** With no new retry recorded since, a retry consumed at i is consumed again at j exactly when
      j leaves a failure entered after i and stamped before the retry. */
  lemma {:induction false} WhenRetryIsConsumedAgain(events: seq<Event>, i: nat, j: nat)
    requires i < j < |events| && Consumes(events, i) && NoRetryBetween(events, i, j)
    ensures Run(events[..i]).retry.Some?
    ensures Consumes(events, j) <==>
            && LeavesFailed(events, j)
            && exists m :: i < m < j && FailedSince(events, m, j) && events[m].now < Run(events[..i]).retry.value
  {
    RetryIsKept(events, i, j);
    assert events[..i + 1][..i] == events[..i];
    if LeavesFailed(events, j) {
      var m := FailureHasAStart(events, i + 1, j);
      forall n | i < n < j && FailedSince(events, n, j) ensures n == m {
        OneStart(events, m, n, j);
      }
    }
  }

  ghost predicate NonDecreasingClock(events: seq<Event>) {
    forall i, j | 0 <= i < j < |events| :: events[i].now <= events[j].now
  }

  /** No retry of a run is recorded later than its last event. */
  lemma {:induction false} RetriesArePast(events: seq<Event>, now: Time)
    requires forall e | e in events :: e.now <= now
    ensures Run(events).retry.Some? ==> Run(events).retry.value <= now
  {
    if events != [] {
      var n := |events| - 1;
      assert events[n] in events;
      RetriesArePast(events[..n], now);
    }
  }

  /** Between two consumptions of spec.retry a human recorded a new one, if the clock never runs back. */
  lemma RetryConsumedAtMostOnce(events: seq<Event>, i: nat, j: nat)
    requires NonDecreasingClock(events)
    requires i < j < |events| && Consumes(events, i) && Consumes(events, j)
    ensures exists k :: i < k < j && events[k].Retry?
  {
    if NoRetryBetween(events, i, j) {
      WhenRetryIsConsumedAgain(events, i, j);
      var m :| i < m < j && FailedSince(events, m, j) && events[m].now < Run(events[..i]).retry.value;
      forall e | e in events[..i] ensures e.now <= events[m].now {
        var k :| 0 <= k < i && events[k] == e;
      }
      RetriesArePast(events[..i], events[m].now);
      assert false;
    }
  }

  /** A consumed retry stays actionable, until a terminal phase is entered no earlier than it was
      recorded: only the check for Failed beside RetryRequested stops a second consumption. */
  lemma {:induction false} RetryRequestedOutlivesConsumption(events: seq<Event>, k: nat, j: nat)
    requires k < j <= |events| && Consumes(events, k) && NoRetryBetween(events, k, j)
    ensures Run(events[..k]).retry.Some?
    ensures var f := Run(events[..j]);
      RetryRequested(f) <==> !Terminal(f.phase) || (f.phaseTimes != [] && LastStamp(f) < Run(events[..k]).retry.value)
    ensures Run(events[..k + 1]).phase != Failed && RetryRequested(Run(events[..k + 1]))
  {
    RetryIsKept(events, k, j);
    WhenRetryIsRequested(events[..j]);
    assert events[..k + 1][..k] == events[..k];
  }

  lemma RunOneMore(events: seq<Event>, e: Event)
    ensures Run(events + [e]) == Step(Run(events), e)
  {
    Snoc(events, e);
  }

  /** One more call of any run, told by the table: what is accepted, and what it records. */
  lemma OneMoreCall(events: seq<Event>, to: Phase, now: Time)
    ensures var f, g := Run(events), Run(events + [Move(to, now)]);
      && (g.phase == to <==> f.phase == to || Edge(f.phase, to))
      && (g.phase != to || f.phase == to ==> g == f)
      && (g.phase == to && f.phase != to ==>
            && g.retry == f.retry && g.phaseTimes == f.phaseTimes + [PhaseTime(to, now)]
            && g.completedAt
               == if to == Remediated || to == Failed || to == Dismissed || to == HandedOff then Some(now) else None)
  {
    hide Run;
    RunOneMore(events, Move(to, now));
  }

  /** With a clock that runs backwards one retry is consumed twice. */
  lemma BackwardClockConsumesTwice()
    ensures exists events: seq<Event>, i, j ::
      0 <= i < j < |events| && Consumes(events, i) && Consumes(events, j) && NoRetryBetween(events, i, j)
  {
    hide Run;
    var e4 := FailedOnce();
    var e5 := e4 + [Retry(9)];
    var e6 := e5 + [Move(Enhanced, 10)];
    var e7 := e6 + [Move(Investigating, 10)];
    var e8 := e7 + [Move(Failed, 5)];
    var e9 := e8 + [Move(Enhanced, 5)];
    RunOneMore(e4, Retry(9));
    RunOneMore(e5, Move(Enhanced, 10));
    RunOneMore(e6, Move(Investigating, 10));
    RunOneMore(e7, Move(Failed, 5));
    assert e9[..5] == e5 && e9[..8] == e8;
    assert Consumes(e9, 5) && Consumes(e9, 8);
    assert forall k | 5 < k < 8 :: e9[k].Move?;
  }

  lemma FailedOnce() returns (events: seq<Event>)
    ensures |events| == 4 && Run(events).phase == Failed && Run(events).completedAt == Some(0)
    ensures Run(events).retry.None?
  {
    events := [] + [Move(Opened, 0)];
    RunOneMore([], Move(Opened, 0));
    RunOneMore(events, Move(Enhanced, 0));
    events := events + [Move(Enhanced, 0)];
    RunOneMore(events, Move(Investigating, 0));
    events := events + [Move(Investigating, 0)];
    RunOneMore(events, Move(Failed, 0));
    events := events + [Move(Failed, 0)];
  }
}
