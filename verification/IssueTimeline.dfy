/** Issues, their labels and their timelines: labels are changed in place, and
    every change of one is an event of the issue's timeline. */
module IssueTimeline {
  import opened Text

  /** Nanoseconds. */
  type Time = nat

  const SECOND: nat := 1_000_000_000

  /** The clock at the API's precision, whole seconds. */
  function Seconds(now: Time): Time {
    now - now % SECOND
  }

  /** The last whole second, at or before now. */
  lemma SecondsRoundDown(now: Time)
    ensures Seconds(now) % 1_000_000_000 == 0 && Seconds(now) <= now < Seconds(now) + 1_000_000_000
  {}

  function Later(a: Time, b: Time): (t: Time)
    ensures t >= a && t >= b && (t == a || t == b)
  {
    if b > a then b else a
  }

  type Actor = string

  datatype Event = Event(id: nat, event: string, labelName: Option<string>, actor: Actor, createdAt: Time)

  datatype IssueRecord = IssueRecord(
    number: nat, title: string, body: string, user: Actor, repositoryURL: string, htmlURL: string,
    state: string, stateReason: string, labels: seq<string>, assignees: seq<Actor>,
    createdAt: Time, updatedAt: Time, comments: nat)

  /** What an issue is opened with, besides its labels. */
  datatype Opening = Opening(owner: string, repo: string, title: string, body: string, author: Actor)

  function RepositoryURL(o: Opening): string {
    "https://api.github.com/repos/" + o.owner + "/" + o.repo
  }

  function HTMLURL(o: Opening, number: nat): string {
    "https://github.com/" + o.owner + "/" + o.repo + "/issues/" + Decimal(number)
  }

  function NewRecord(number: nat, o: Opening, now: Time): IssueRecord {
    IssueRecord(
      number, o.title, o.body, o.author, RepositoryURL(o), HTMLURL(o, number), "open", "", [], [], now, now, 0)
  }

  const BOT: Actor := "maul[bot]"

  datatype Comment = Comment(
    id: nat, body: string, user: Actor, createdAt: Time, updatedAt: Time, htmlURL: string, viaApp: bool)

  /** pulls maps a pull request's number, taken from the issues' counter, to its page. */
  datatype Tracker = Tracker(
    issues: map<nat, IssueRecord>, events: map<nat, seq<Event>>, comments: map<nat, seq<Comment>>,
    pulls: map<nat, string>, next: nat, nextEventID: nat, nextCommentID: nat)
  {
    function Timeline(number: nat): seq<Event> {
      if number in events then events[number] else []
    }

    function CommentsOn(number: nat): seq<Comment> {
      if number in comments then comments[number] else []
    }
  }

  const NEW_TRACKER := Tracker(map[], map[], map[], map[], 100, 0, 0)

  /** The two clock readings of one change: for updated_at, then for the event. */
  datatype Clock = Clock(touch: Time, record: Time)

  function Touched(issue: IssueRecord, now: Time): IssueRecord {
    if Seconds(now) > issue.updatedAt then issue.(updatedAt := Seconds(now)) else issue
  }

  function NewEvent(id: nat, event: string, labelName: string, actor: Actor, now: Time): Event {
    Event(id, event, if labelName != "" then Some(labelName) else None, actor, Seconds(now))
  }

  function Appended(events: map<nat, seq<Event>>, number: nat, ev: Event): map<nat, seq<Event>> {
    events[number := (if number in events then events[number] else []) + [ev]]
  }

  function Recorded(t: Tracker, number: nat, event: string, labelName: string, actor: Actor, now: Time): Tracker {
    var id := t.nextEventID + 1;
    t.(nextEventID := id, events := Appended(t.events, number, NewEvent(id, event, labelName, actor, now)))
  }

  /** slices.DeleteFunc on one name. */
  function Without(labels: seq<string>, name: string): seq<string> {
    if labels == [] then []
    else
      var last := labels[|labels| - 1];
      Without(labels[..|labels| - 1], name) + if last == name then [] else [last]
  }

  lemma {:induction false} WithoutHolds(labels: seq<string>, name: string)
    ensures var r := Without(labels, name);
      && (forall l :: l in r <==> l in labels && l != name)
      && |r| <= |labels| && (|r| == |labels| <==> name !in labels)
  {
    if labels != [] {
      WithoutHolds(labels[..|labels| - 1], name);
      Unsnoc(labels);
    }
  }

  /** The length tells whether anything was taken out. */
  lemma {:induction false} WithoutTells(labels: seq<string>, name: string)
    ensures |Without(labels, name)| == |labels| <==> name !in labels
    ensures name !in labels ==> Without(labels, name) == labels
    ensures name !in Without(labels, name)
  {
    WithoutHolds(labels, name);
    if name !in labels && labels != [] {
      Unsnoc(labels);
      WithoutTells(labels[..|labels| - 1], name);
    }
  }

  /** rest is labels with every occurrence of name taken out, in the same order. */
  ghost predicate Removed(labels: seq<string>, name: string, rest: seq<string>) {
    name !in rest && exists at: seq<nat> :: Kept(labels, name, rest, at)
  }

  /** at gives the position each kept label had, in increasing order; all others were name. */
  ghost predicate Kept(labels: seq<string>, name: string, rest: seq<string>, at: seq<nat>) {
    && |at| == |rest|
    && (forall i | 0 <= i < |at| :: at[i] < |labels| && labels[at[i]] == rest[i])
    && (forall i, j | 0 <= i < j < |at| :: at[i] < at[j])
    && (forall k | 0 <= k < |labels| && labels[k] != name :: k in at)
  }

  lemma KeptSnoc(labels: seq<string>, x: string, name: string, rest: seq<string>, at: seq<nat>)
    requires Kept(labels, name, rest, at)
    ensures if x == name then Kept(labels + [x], name, rest, at)
            else Kept(labels + [x], name, rest + [x], at + [|labels|])
  {
    var longer, more := labels + [x], at + [|labels|];
    assert longer[|labels|] == x && forall k | 0 <= k < |labels| :: longer[k] == labels[k];
    assert more[|at|] == |labels| && forall i | 0 <= i < |at| :: more[i] == at[i];
  }

  lemma WithoutSnoc(labels: seq<string>, x: string, name: string)
    ensures Without(labels + [x], name) == Without(labels, name) + if x == name then [] else [x]
  {
    Snoc(labels, x);
  }

  lemma {:induction false} WithoutKeeps(labels: seq<string>, name: string) returns (at: seq<nat>)
    ensures Kept(labels, name, Without(labels, name), at)
  {
    if labels == [] {
      at := [];
    } else {
      hide Kept, Without;
      var init, x := labels[..|labels| - 1], labels[|labels| - 1];
      at := WithoutKeeps(init, name);
      KeptSnoc(init, x, name, Without(init, name), at);
      WithoutSnoc(init, x, name);
      assert labels == init + [x];
      if x != name {
        at := at + [|init|];
      }
    }
  }

  lemma WithoutRemoves(labels: seq<string>, name: string)
    ensures Removed(labels, name, Without(labels, name))
  {
    var at := WithoutKeeps(labels, name);
    WithoutHolds(labels, name);
  }

  function Labelled(t: Tracker, number: nat, name: string, actor: Actor, clock: Clock): Tracker
    requires number in t.issues
  {
    var issue := t.issues[number];
    if name in issue.labels then t
    else
      var changed := Touched(issue.(labels := issue.labels + [name]), clock.touch);
      Recorded(t.(issues := t.issues[number := changed]), number, "labeled", name, actor, clock.record)
  }

  function Unlabelled(t: Tracker, number: nat, name: string, actor: Actor, clock: Clock): Tracker
    requires number in t.issues
  {
    var issue := t.issues[number];
    if name !in issue.labels then t
    else
      var changed := Touched(issue.(labels := Without(issue.labels, name)), clock.touch);
      Recorded(t.(issues := t.issues[number := changed]), number, "unlabeled", name, actor, clock.record)
  }

  lemma UnlabelledIs(t: Tracker, n: nat, name: string, actor: Actor, clock: Clock)
    requires n in t.issues
    ensures var issue := t.issues[n];
      Unlabelled(t, n, name, actor, clock)
      == if name !in issue.labels then t
         else
           Tracker(
             t.issues[n := Touched(issue.(labels := Without(issue.labels, name)), clock.touch)],
             Appended(t.events, n, NewEvent(t.nextEventID + 1, "unlabeled", name, actor, clock.record)),
             t.comments, t.pulls, t.next, t.nextEventID + 1, t.nextCommentID)
  {}

  function StateSet(t: Tracker, number: nat, state: string, reason: string, actor: Actor, clock: Clock): Tracker
    requires number in t.issues
  {
    var issue := t.issues[number];
    if issue.state == state then t
    else
      var reason := if state == "open" then "" else reason;
      var changed := Touched(issue.(state := state, stateReason := reason), clock.touch);
      var u := t.(issues := t.issues[number := changed]);
      if state == "closed" then Recorded(u, number, "closed", "", actor, clock.record)
      else if state == "open" then Recorded(u, number, "reopened", "", actor, clock.record)
      else u
  }

  function Opened(t: Tracker, o: Opening, now: Time): Tracker {
    t.(next := t.next + 1, issues := t.issues[t.next + 1 := NewRecord(t.next + 1, o, now)])
  }

  /** A state set from outside the API: no reason and no event. */
  function StateForced(t: Tracker, number: nat, state: string, now: Time): Tracker
    requires number in t.issues
  {
    var issue := t.issues[number];
    if issue.state == state then t else t.(issues := t.issues[number := Touched(issue.(state := state), now)])
  }

  function BodySet(t: Tracker, number: nat, body: string, now: Time): Tracker
    requires number in t.issues
  {
    var issue := t.issues[number];
    if issue.body == body then t else t.(issues := t.issues[number := Touched(issue.(body := body), now)])
  }

  function AssigneesAdded(t: Tracker, number: nat, logins: seq<Actor>, now: Time): Tracker
    requires number in t.issues
  {
    var issue := t.issues[number];
    if logins == [] then t
    else t.(issues := t.issues[number := Touched(issue.(assignees := issue.assignees + logins), now)])
  }

  function PullURL(owner: string, repo: string, number: nat): string {
    "https://github.com/" + owner + "/" + repo + "/pull/" + Decimal(number)
  }

  function PullOpened(t: Tracker, owner: string, repo: string): Tracker {
    t.(next := t.next + 1, pulls := t.pulls[t.next + 1 := PullURL(owner, repo, t.next + 1)])
  }

  /** A comment's anchor on the page of the issue or pull request it is on. */
  function CommentURL(page: string, id: nat): string {
    if page != "" then page + "#issuecomment-" + Decimal(id) else ""
  }

  function NewComment(id: nat, body: string, author: Actor, page: string, now: Time): Comment {
    Comment(id, body, author, Seconds(now), Seconds(now), CommentURL(page, id), author == BOT)
  }

  function PageOf(t: Tracker, number: nat): string {
    if number in t.issues then t.issues[number].htmlURL else if number in t.pulls then t.pulls[number] else ""
  }

  /** A comment is kept whatever it is on; only an issue counts it. */
  function Commented(t: Tracker, number: nat, body: string, author: Actor, clock: Clock): Tracker {
    var id := t.nextCommentID + 1;
    var c := NewComment(id, body, author, PageOf(t, number), clock.record);
    t.(nextCommentID := id,
       comments := t.comments[number := t.CommentsOn(number) + [c]],
       issues := if number in t.issues then t.issues[number := Counted(t.issues[number], clock.touch)] else t.issues)
  }

  function Counted(issue: IssueRecord, now: Time): IssueRecord {
    Touched(issue.(comments := issue.comments + 1), now)
  }

  /** openIssue: the new issue, then each initial label in order. */
  function OpenedWith(t: Tracker, o: Opening, now: Time, labels: seq<string>, clocks: seq<Clock>): (u: Tracker)
    requires |labels| == |clocks|
    ensures t.next + 1 in u.issues
    decreases |labels|
  {
    if labels == [] then Opened(t, o, now)
    else
      var n := |labels| - 1;
      Labelled(OpenedWith(t, o, now, labels[..n], clocks[..n]), t.next + 1, labels[n], o.author, clocks[n])
  }

  /** The labels with those already named before left out. */
  function FirstUses(labels: seq<string>): seq<string> {
    if labels == [] then []
    else
      var before, last := FirstUses(labels[..|labels| - 1]), labels[|labels| - 1];
      before + if last in before then [] else [last]
  }

  function LabeledEvent(id: nat, name: string, actor: Actor, now: Time): Event {
    Event(id, "labeled", if name == "" then None else Some(name), actor, Seconds(now))
  }

  /** One labeled event by the opener for each first use, with the ids that follow. */
  function OpeningEvents(labels: seq<string>, clocks: seq<Clock>, author: Actor, lastID: nat): seq<Event>
    requires |labels| == |clocks|
    decreases |labels|
  {
    if labels == [] then []
    else
      var n := |labels| - 1;
      OneMoreEvent(
        OpeningEvents(labels[..n], clocks[..n], author, lastID), FirstUses(labels[..n]),
        labels[n], clocks[n], author, lastID)
  }

  function OneMoreEvent(
    before: seq<Event>, used: seq<string>, name: string, clock: Clock, author: Actor, lastID: nat): seq<Event>
  {
    before + if name in used then [] else [LabeledEvent(lastID + |before| + 1, name, author, clock.record)]
  }

  lemma FirstUsesSnoc(labels: seq<string>, name: string)
    ensures FirstUses(labels + [name]) == FirstUses(labels) + if name in FirstUses(labels) then [] else [name]
  {
    Snoc(labels, name);
  }

  lemma OpeningEventsSnoc(
    labels: seq<string>, clocks: seq<Clock>, name: string, clock: Clock, author: Actor, lastID: nat)
    requires |labels| == |clocks|
    ensures OpeningEvents(labels + [name], clocks + [clock], author, lastID)
            == OneMoreEvent(
                 OpeningEvents(labels, clocks, author, lastID), FirstUses(labels), name, clock, author, lastID)
  {
    hide LabeledEvent, FirstUses, OneMoreEvent;
    Snoc(labels, name);
    Snoc(clocks, clock);
  }

  /** The first uses are the labels, each once. */
  lemma {:induction false} FirstUsesAreTheLabels(labels: seq<string>)
    ensures NoRepeats(FirstUses(labels)) && forall l :: l in FirstUses(labels) <==> l in labels
  {
    if labels != [] {
      var n := |labels| - 1;
      FirstUsesAreTheLabels(labels[..n]);
      Unsnoc(labels);
    }
  }

  /** One issue more, with these labels and these events, and nothing else changed. */
  ghost predicate OpenedAs(t: Tracker, u: Tracker, labels: seq<string>, recorded: seq<Event>) {
    var n := t.next + 1;
    && u.issues.Keys == t.issues.Keys + {n} && u.next == n
    && u.issues[n].labels == labels
    && u.Timeline(n) == t.Timeline(n) + recorded && u.nextEventID == t.nextEventID + |recorded|
    && (forall m | m in t.issues && m != n :: u.issues[m] == t.issues[m])
    && (forall m | m != n :: u.Timeline(m) == t.Timeline(m))
  }

  lemma LabelOpened(
    t: Tracker, u: Tracker, labels: seq<string>, recorded: seq<Event>, name: string, actor: Actor, clock: Clock)
    requires OpenedAs(t, u, labels, recorded)
    ensures t.next + 1 in u.issues
    ensures OpenedAs(
              t, Labelled(u, t.next + 1, name, actor, clock), labels + if name in labels then [] else [name],
              OneMoreEvent(recorded, labels, name, clock, actor, t.nextEventID))
  {
    var n := t.next + 1;
    LabelledEffect(u, n, name, actor, clock);
    hide Labelled, LabeledEvent, Tracker.Timeline;
    if name in labels {
      assert labels + [] == labels && recorded + [] == recorded;
    } else {
      var ev := LabeledEvent(u.nextEventID + 1, name, actor, clock.record);
      assert t.Timeline(n) + recorded + [ev] == t.Timeline(n) + (recorded + [ev]);
    }
  }

  /** An issue opened with labels carries each once, in order of first use, and its timeline says so. */
  lemma {:induction false} OpenedWithFirstUses(
    t: Tracker, o: Opening, now: Time, labels: seq<string>, clocks: seq<Clock>)
    requires |labels| == |clocks|
    ensures OpenedAs(
              t, OpenedWith(t, o, now, labels, clocks), FirstUses(labels),
              OpeningEvents(labels, clocks, o.author, t.nextEventID))
    decreases |labels|
  {
    if labels == [] {
      OpenedWithNone(t, o, now);
    } else {
      var k := |labels| - 1;
      hide *;
      OpenedWithFirstUses(t, o, now, labels[..k], clocks[..k]);
      OneMoreOpened(t, o, now, labels[..k], clocks[..k], labels[k], clocks[k]);
      Unsnoc(labels);
      Unsnoc(clocks);
    }
  }

  lemma OneMoreOpened(
    t: Tracker, o: Opening, now: Time, labels: seq<string>, clocks: seq<Clock>, name: string, clock: Clock)
    requires |labels| == |clocks|
    requires OpenedAs(
               t, OpenedWith(t, o, now, labels, clocks), FirstUses(labels),
               OpeningEvents(labels, clocks, o.author, t.nextEventID))
    ensures OpenedAs(
              t, OpenedWith(t, o, now, labels + [name], clocks + [clock]), FirstUses(labels + [name]),
              OpeningEvents(labels + [name], clocks + [clock], o.author, t.nextEventID))
  {
    hide *;
    var uses, events := FirstUses(labels), OpeningEvents(labels, clocks, o.author, t.nextEventID);
    OpenedWithSnoc(t, o, now, labels, clocks, name, clock);
    FirstUsesSnoc(labels, name);
    OpeningEventsSnoc(labels, clocks, name, clock, o.author, t.nextEventID);
    LabelOpened(t, OpenedWith(t, o, now, labels, clocks), uses, events, name, o.author, clock);
  }

  /** What labelling does, event by event. */
  lemma LabelledEffect(t: Tracker, n: nat, name: string, actor: Actor, clock: Clock)
    requires n in t.issues
    ensures var u := Labelled(t, n, name, actor, clock);
      if name in t.issues[n].labels then u == t
      else
        && u.issues
           == t.issues[n := t.issues[n].(
                labels := t.issues[n].labels + [name],
                updatedAt := Later(t.issues[n].updatedAt, Seconds(clock.touch)))]
        && u.nextEventID == t.nextEventID + 1 && u.next == t.next
        && u.Timeline(n) == t.Timeline(n) + [LabeledEvent(u.nextEventID, name, actor, clock.record)]
        && forall m | m != n :: u.Timeline(m) == t.Timeline(m)
  {}

  lemma OpenedWithNone(t: Tracker, o: Opening, now: Time)
    ensures OpenedWith(t, o, now, [], []) == Opened(t, o, now)
  {}
  lemma OpenedWithSnoc(
    t: Tracker, o: Opening, now: Time, labels: seq<string>, clocks: seq<Clock>, name: string, clock: Clock)
    requires |labels| == |clocks|
    ensures OpenedWith(t, o, now, labels + [name], clocks + [clock])
            == Labelled(OpenedWith(t, o, now, labels, clocks), t.next + 1, name, o.author, clock)
  {
    hide Labelled;
    Snoc(labels, name);
    Snoc(clocks, clock);
  }

  lemma OpenedWithNext(t: Tracker, o: Opening, now: Time, labels: seq<string>, clocks: seq<Clock>, k: nat)
    requires k < |labels| == |clocks|
    ensures OpenedWith(t, o, now, labels[..k + 1], clocks[..k + 1])
            == Labelled(OpenedWith(t, o, now, labels[..k], clocks[..k]), t.next + 1, labels[k], o.author, clocks[k])
  {
    hide Labelled;
    assert labels[..k + 1][..k] == labels[..k] && clocks[..k + 1][..k] == clocks[..k];
  }

  // ---- the server ----

  class Issue {
    const number: nat
    const title: string
    var body: string
    const user: Actor
    const repositoryURL: string
    const htmlURL: string
    var state: string
    var stateReason: string
    var labels: seq<string>
    var assignees: seq<Actor>
    const createdAt: Time
    var updatedAt: Time
    var comments: nat

    function Record(): IssueRecord
      reads this
    {
      IssueRecord(
        number, title, body, user, repositoryURL, htmlURL, state, stateReason, labels, assignees,
        createdAt, updatedAt, comments)
    }

    constructor (number: nat, o: Opening, now: Time)
      ensures this.number == number && Record() == NewRecord(number, o, now)
    {
      this.number, this.createdAt, this.updatedAt := number, now, now;
      title, body, user := o.title, o.body, o.author;
      repositoryURL, htmlURL := RepositoryURL(o), HTMLURL(o, number);
      state, stateReason, labels, assignees, comments := "open", "", [], [], 0;
    }
  }

  class Server {
    var issues: map<nat, Issue>
    var events: map<nat, seq<Event>>
    var comments: map<nat, seq<Comment>>
    var pulls: map<nat, string>
    var next: nat
    var nextEventID: nat
    var nextCommentID: nat

    ghost predicate Valid()
      reads this
    {
      forall n | n in issues :: issues[n].number == n && n <= next
    }

    ghost predicate Holds(issue: Issue)
      reads this
    {
      issue.number in issues && issues[issue.number] == issue
    }

    ghost function Records(): map<nat, IssueRecord>
      reads this, issues.Values
    {
      map n | n in issues :: issues[n].Record()
    }

    ghost function View(): Tracker
      reads this, issues.Values
    {
      Tracker(Records(), events, comments, pulls, next, nextEventID, nextCommentID)
    }

    constructor ()
      ensures Valid() && View() == NEW_TRACKER
    {
      issues, events, comments, pulls := map[], map[], map[], map[];
      next, nextEventID, nextCommentID := 100, 0, 0;
    }

    function TimelineOf(number: nat): seq<Event>
      reads this
    {
      if number in events then events[number] else []
    }

    /** The event took the next id and ended its issue's timeline; no other timeline changed. */
    twostate predicate OnlyRecorded(number: nat, event: string, labelName: Option<string>, actor: Actor, at: Time)
      reads this
    {
      && nextEventID == old(nextEventID) + 1
      && TimelineOf(number) == old(TimelineOf(number)) + [Event(nextEventID, event, labelName, actor, at)]
      && forall n | n != number :: TimelineOf(n) == old(TimelineOf(n))
    }

    method Touch(issue: Issue, clockNow: Time)
      modifies issue`updatedAt
      ensures issue.updatedAt == Later(old(issue.updatedAt), Seconds(clockNow))
      ensures issue.Record() == Touched(old(issue.Record()), clockNow)
    {
      var now := Seconds(clockNow);
      if now > issue.updatedAt {
        issue.updatedAt := now;
      }
    }

    method RecordEvent(number: nat, event: string, labelName: string, actor: Actor, now: Time)
      modifies `nextEventID, `events
      ensures nextEventID == old(nextEventID) + 1
      ensures OnlyRecorded(number, event, if labelName == "" then None else Some(labelName), actor, Seconds(now))
      ensures events == Appended(old(events), number, NewEvent(nextEventID, event, labelName, actor, now))
    {
      nextEventID := nextEventID + 1;
      var ev := Event(nextEventID, event, if labelName != "" then Some(labelName) else None, actor, Seconds(now));
      events := events[number := (if number in events then events[number] else []) + [ev]];
    }

    lemma RecordIsHeld(issue: Issue)
      requires Holds(issue)
      ensures issue.number in Records() && Records()[issue.number] == issue.Record()
    {}

    /** Changing one issue in place changes its record and no other. */
    twostate lemma OneRecordChanged(issue: Issue)
      requires old(Valid()) && old(Holds(issue)) && unchanged(`issues)
      requires forall n | n in issues && issues[n] != issue :: unchanged(issues[n])
      ensures Records() == old(Records())[issue.number := issue.Record()]
    {}

    twostate lemma OneIssueAdded(new issue: Issue)
      requires old(Valid()) && issue.number !in old(issues) && issues == old(issues)[issue.number := issue]
      requires forall n | n in old(issues) :: unchanged(old(issues)[n])
      ensures Records() == old(Records())[issue.number := issue.Record()]
    {}

    method Label(issue: Issue, name: string, actor: Actor, clock: Clock)
      requires Valid() && Holds(issue)
      modifies issue`labels, issue`updatedAt, `nextEventID, `events
      ensures View() == Labelled(old(View()), issue.number, name, actor, clock)
      ensures name in old(issue.labels) ==> View() == old(View())
      ensures name !in old(issue.labels) ==>
        && issue.labels == old(issue.labels) + [name]
        && issue.updatedAt == Later(old(issue.updatedAt), Seconds(clock.touch))
        && OnlyRecorded(
             issue.number, "labeled", if name == "" then None else Some(name), actor, Seconds(clock.record))
    {
      hide Appended, NewEvent, Touched, Records;
      RecordIsHeld(issue);
      if name in issue.labels {
        return;
      }
      issue.labels := issue.labels + [name];
      Touch(issue, clock.touch);
      RecordEvent(issue.number, "labeled", name, actor, clock.record);
      OneRecordChanged(issue);
    }

    method Unlabel(issue: Issue, name: string, actor: Actor, clock: Clock) returns (carried: bool)
      requires Valid() && Holds(issue)
      modifies issue`labels, issue`updatedAt, `nextEventID, `events
      ensures carried <==> name in old(issue.labels)
      ensures View() == Unlabelled(old(View()), issue.number, name, actor, clock)
      ensures name !in old(issue.labels) ==> View() == old(View())
      ensures name in old(issue.labels) ==>
        && issue.labels == Without(old(issue.labels), name) && name !in issue.labels
        && issue.updatedAt == Later(old(issue.updatedAt), Seconds(clock.touch))
        && OnlyRecorded(
             issue.number, "unlabeled", if name == "" then None else Some(name), actor, Seconds(clock.record))
    {
      WithoutTells(issue.labels, name);
      hide Appended, NewEvent, Touched, Records, Without, Unlabelled, TimelineOf;
      RecordIsHeld(issue);
      UnlabelledIs(View(), issue.number, name, actor, clock);
      var before := |issue.labels|;
      issue.labels := Without(issue.labels, name);
      if |issue.labels| == before {
        OneRecordChanged(issue);
        return false;
      }
      Touch(issue, clock.touch);
      RecordEvent(issue.number, "unlabeled", name, actor, clock.record);
      OneRecordChanged(issue);
      carried := true;
    }

    method SetState(issue: Issue, state: string, reason: string, actor: Actor, clock: Clock)
      requires Valid() && Holds(issue)
      modifies issue`state, issue`stateReason, issue`updatedAt, `nextEventID, `events
      ensures View() == StateSet(old(View()), issue.number, state, reason, actor, clock)
      ensures old(issue.state) == state ==> View() == old(View())
      ensures old(issue.state) != state ==>
        && issue.state == state && issue.stateReason == (if state == "open" then "" else reason)
        && issue.updatedAt == Later(old(issue.updatedAt), Seconds(clock.touch))
        && (state == "closed" ==> OnlyRecorded(issue.number, "closed", None, actor, Seconds(clock.record)))
        && (state == "open" ==> OnlyRecorded(issue.number, "reopened", None, actor, Seconds(clock.record)))
        && (state != "closed" && state != "open" ==> events == old(events) && nextEventID == old(nextEventID))
    {
      hide Appended, NewEvent, Records;
      RecordIsHeld(issue);
      if issue.state == state {
        return;
      }
      issue.state := state;
      issue.stateReason := reason;
      Touch(issue, clock.touch);
      if state == "closed" {
        RecordEvent(issue.number, "closed", "", actor, clock.record);
      } else if state == "open" {
        issue.stateReason := "";
        RecordEvent(issue.number, "reopened", "", actor, clock.record);
      }
      OneRecordChanged(issue);
    }

    method SetIssueState(issue: Issue, state: string, now: Time)
      requires Valid() && Holds(issue)
      modifies issue`state, issue`updatedAt
      ensures View() == StateForced(old(View()), issue.number, state, now)
      ensures issue.state == state
      ensures issue.updatedAt
              == if old(issue.state) == state then old(issue.updatedAt) else Later(old(issue.updatedAt), Seconds(now))
    {
      if issue.state != state {
        issue.state := state;
        Touch(issue, now);
        OneRecordChanged(issue);
      }
    }

    method SetBody(issue: Issue, body: string, now: Time)
      requires Valid() && Holds(issue)
      modifies issue`body, issue`updatedAt
      ensures View() == BodySet(old(View()), issue.number, body, now)
      ensures issue.body == body
      ensures issue.updatedAt
              == if old(issue.body) == body then old(issue.updatedAt) else Later(old(issue.updatedAt), Seconds(now))
    {
      if body != issue.body {
        issue.body := body;
        Touch(issue, now);
        OneRecordChanged(issue);
      }
    }

    method AddAssignees(issue: Issue, logins: seq<Actor>, now: Time)
      requires Valid() && Holds(issue)
      modifies issue`assignees, issue`updatedAt
      ensures View() == AssigneesAdded(old(View()), issue.number, logins, now)
      ensures issue.assignees == old(issue.assignees) + logins
      ensures issue.updatedAt
              == if logins == [] then old(issue.updatedAt) else Later(old(issue.updatedAt), Seconds(now))
    {
      for k := 0 to |logins|
        invariant issue.assignees == old(issue.assignees) + logins[..k]
        invariant issue.updatedAt == old(issue.updatedAt)
      {
        issue.assignees := issue.assignees + [logins[k]];
      }
      if |logins| > 0 {
        Touch(issue, now);
      }
      assert logins[..|logins|] == logins;
      OneRecordChanged(issue);
    }

    /** The issue or the pull request the comment is on may not exist. */
    method AddComment(number: nat, body: string, author: Actor, clock: Clock) returns (c: Comment)
      requires Valid()
      modifies `comments, `nextCommentID, if number in issues then {issues[number]} else {}
      ensures View() == Commented(old(View()), number, body, author, clock)
      ensures nextCommentID == old(nextCommentID) + 1
      ensures comments
              == old(comments)[number := (if number in old(comments) then old(comments)[number] else []) + [c]]
      ensures var at := Seconds(clock.record);
        var page := if number in issues then issues[number].htmlURL else if number in pulls then pulls[number] else "";
        c == Comment(
          nextCommentID, body, author, at, at,
          if page == "" then "" else page + "#issuecomment-" + Decimal(nextCommentID), author == "maul[bot]")
      ensures number in issues ==>
        && issues[number].comments == old(issues[number].comments) + 1
        && issues[number].updatedAt == Later(old(issues[number].updatedAt), Seconds(clock.touch))
    {
      hide Touched, Records;
      NumbersAreRecorded(number);
      if number in issues {
        RecordIsHeld(issues[number]);
      }
      nextCommentID := nextCommentID + 1;
      var page := "";
      if number in issues {
        page := issues[number].htmlURL;
      } else if number in pulls {
        page := pulls[number];
      }
      c := NewComment(nextCommentID, body, author, page, clock.record);
      comments := comments[number := (if number in comments then comments[number] else []) + [c]];
      if number in issues {
        issues[number].comments := issues[number].comments + 1;
        Touch(issues[number], clock.touch);
        OneRecordChanged(issues[number]);
      } else {
        NoRecordChanged();
      }
    }

    lemma NumbersAreRecorded(number: nat)
      ensures number in Records() <==> number in issues
    {}

    twostate lemma NoRecordChanged()
      requires unchanged(`issues) && forall n | n in issues :: unchanged(issues[n])
      ensures Records() == old(Records())
    {}

    method OpenPull(owner: string, repo: string) returns (number: nat)
      requires Valid()
      modifies `next, `pulls
      ensures Valid() && number == old(next) + 1
      ensures View() == PullOpened(old(View()), owner, repo)
      ensures next == number
      ensures pulls
              == old(pulls)[number := "https://github.com/" + owner + "/" + repo + "/pull/" + Decimal(number)]
    {
      next := next + 1;
      number := next;
      pulls := pulls[number := PullURL(owner, repo, number)];
    }

    method NewIssue(o: Opening, now: Time) returns (issue: Issue)
      requires Valid()
      modifies `issues, `next
      ensures Valid() && fresh(issue) && Holds(issue) && issue.number == old(next) + 1
      ensures View() == Opened(old(View()), o, now)
      ensures next == old(next) + 1 && issues == old(issues)[next := issue]
      ensures issue.title == o.title && issue.body == o.body && issue.user == o.author
      ensures issue.state == "open" && issue.stateReason == "" && issue.labels == [] && issue.assignees == []
      ensures issue.createdAt == issue.updatedAt == now && issue.comments == 0
      ensures issue.repositoryURL == "https://api.github.com/repos/" + o.owner + "/" + o.repo
      ensures issue.htmlURL
              == "https://github.com/" + o.owner + "/" + o.repo + "/issues/" + Decimal(issue.number)
    {
      next := next + 1;
      issue := new Issue(next, o, now);
      issues := issues[next := issue];
      OneIssueAdded(issue);
    }

    method OpenIssue(o: Opening, labels: seq<string>, now: Time, clocks: seq<Clock>) returns (issue: Issue)
      requires Valid() && |clocks| == |labels|
      modifies `issues, `next, `nextEventID, `events
      ensures Valid() && fresh(issue) && Holds(issue) && issue.number == old(next) + 1
      ensures View() == OpenedWith(old(View()), o, now, labels, clocks)
      ensures issue.labels == FirstUses(labels)
      ensures NoRepeats(issue.labels) && forall l :: l in issue.labels <==> l in labels
      ensures TimelineOf(issue.number)
              == old(TimelineOf(next + 1)) + OpeningEvents(labels, clocks, o.author, old(nextEventID))
      ensures forall n | n != issue.number :: TimelineOf(n) == old(TimelineOf(n))
    {
      TimelinesAreViewed();
      hide Labelled, Opened, OpenedWith, Records, TimelineOf, Tracker.Timeline;
      ghost var before := View();
      issue := NewIssue(o, now);
      OpenedWithNone(before, o, now);
      assert labels[..0] == [] && clocks[..0] == [];
      for k := 0 to |labels|
        invariant Valid() && Holds(issue) && issue.number == before.next + 1 && fresh(issue)
        invariant View() == OpenedWith(before, o, now, labels[..k], clocks[..k])
      {
        OpenedWithNext(before, o, now, labels, clocks, k);
        Label(issue, labels[k], o.author, clocks[k]);
      }
      assert labels[..|labels|] == labels && clocks[..|clocks|] == clocks;
      OpenedWithFirstUses(before, o, now, labels, clocks);
      FirstUsesAreTheLabels(labels);
      RecordIsHeld(issue);
      TimelinesAreViewed();
    }

    lemma TimelinesAreViewed()
      ensures forall n :: TimelineOf(n) == View().Timeline(n)
    {}
  }

  // ---- every run ----

  datatype Op =
    | Open(o: Opening, now: Time)
    | AddLabel(number: nat, name: string, actor: Actor, clock: Clock)
    | RemoveLabel(number: nat, name: string, actor: Actor, clock: Clock)
    | SetState(number: nat, state: string, reason: string, actor: Actor, clock: Clock)
    | ForceState(number: nat, state: string, now: Time)
    | EditBody(number: nat, body: string, now: Time)
    | Assign(number: nat, logins: seq<Actor>, now: Time)
    | AddComment(number: nat, body: string, author: Actor, clock: Clock)
    | OpenPull(owner: string, repo: string)

  /** A request for an issue that does not exist changes no issue. */
  function Step(t: Tracker, op: Op): Tracker {
    if op.Open? then Opened(t, op.o, op.now)
    else if op.OpenPull? then PullOpened(t, op.owner, op.repo)
    else if op.AddComment? then Commented(t, op.number, op.body, op.author, op.clock)
    else if op.number !in t.issues then t
    else
      match op
      case AddLabel(number, name, actor, clock) => Labelled(t, number, name, actor, clock)
      case RemoveLabel(number, name, actor, clock) => Unlabelled(t, number, name, actor, clock)
      case SetState(number, state, reason, actor, clock) => StateSet(t, number, state, reason, actor, clock)
      case ForceState(number, state, now) => StateForced(t, number, state, now)
      case EditBody(number, body, now) => BodySet(t, number, body, now)
      case Assign(number, logins, now) => AssigneesAdded(t, number, logins, now)
  }

  function Run(ops: seq<Op>): Tracker {
    if ops == [] then NEW_TRACKER else Step(Run(ops[..|ops| - 1]), ops[|ops| - 1])
  }

  function LabelName(ev: Event): string {
    if ev.labelName.Some? then ev.labelName.value else ""
  }

  /** The labels a timeline leaves, in order. */
  function Rebuilt(timeline: seq<Event>): seq<string> {
    if timeline == [] then []
    else
      var labels, ev := Rebuilt(timeline[..|timeline| - 1]), timeline[|timeline| - 1];
      if ev.event == "labeled" then labels + [LabelName(ev)]
      else if ev.event == "unlabeled" then Without(labels, LabelName(ev))
      else labels
  }

  /** The label events of one name in order: true for labeled, false for unlabeled. */
  function Marks(timeline: seq<Event>, name: string): seq<bool> {
    if timeline == [] then []
    else
      var ev := timeline[|timeline| - 1];
      Marks(timeline[..|timeline| - 1], name)
      + (if (ev.event == "labeled" || ev.event == "unlabeled") && LabelName(ev) == name then [ev.event == "labeled"]
         else [])
  }

  predicate Alternates(marks: seq<bool>) {
    forall i | 0 <= i < |marks| :: marks[i] <==> i % 2 == 0
  }

  predicate NoRepeats(labels: seq<string>) {
    forall i, j | 0 <= i < j < |labels| :: labels[i] != labels[j]
  }

  ghost predicate Increasing(timeline: seq<Event>, top: nat) {
    && (forall i, j | 0 <= i < j < |timeline| :: timeline[i].id < timeline[j].id)
    && (forall i | 0 <= i < |timeline| :: timeline[i].id <= top)
  }

  /** What an issue's labels and its timeline keep to each other. */
  ghost predicate Agree(labels: seq<string>, timeline: seq<Event>) {
    && labels == Rebuilt(timeline)
    && NoRepeats(labels)
    && forall name :: NameAgrees(labels, timeline, name)
  }

  ghost predicate NameAgrees(labels: seq<string>, timeline: seq<Event>, name: string) {
    Alternates(Marks(timeline, name)) && (|Marks(timeline, name)| % 2 == 1 <==> name in labels)
  }

  ghost predicate Consistent(t: Tracker) {
    && (forall n | n in t.issues :: n <= t.next && t.issues[n].number == n && Agree(t.issues[n].labels, t.Timeline(n)))
    && (forall n | n !in t.issues :: t.Timeline(n) == [])
    && (forall n :: Increasing(t.Timeline(n), t.nextEventID))
  }

  lemma AgreeNew()
    ensures Agree([], [])
  {}

  /** A label event of one name flips whether the issue carries it. */
  lemma NameStep(labels: seq<string>, after: seq<string>, timeline: seq<Event>, ev: Event, name: string)
    requires NameAgrees(labels, timeline, name)
    requires ev.event == "labeled" || ev.event == "unlabeled"
    requires name != LabelName(ev) ==> (name in after <==> name in labels)
    requires name == LabelName(ev) ==>
      (ev.event == "labeled" <==> name !in labels) && (name in after <==> name !in labels)
    ensures NameAgrees(after, timeline + [ev], name)
  {}

  lemma AgreeLabelled(labels: seq<string>, timeline: seq<Event>, ev: Event)
    requires Agree(labels, timeline) && ev.event == "labeled" && LabelName(ev) !in labels
    ensures Agree(labels + [LabelName(ev)], timeline + [ev])
  {
    hide NameAgrees;
    assert (timeline + [ev])[..|timeline|] == timeline;
    forall name ensures NameAgrees(labels + [LabelName(ev)], timeline + [ev], name) {
      NameStep(labels, labels + [LabelName(ev)], timeline, ev, name);
    }
  }

  lemma {:induction false} WithoutKeepsNoRepeats(labels: seq<string>, name: string)
    requires NoRepeats(labels)
    ensures NoRepeats(Without(labels, name))
  {
    if labels != [] {
      var init, last := labels[..|labels| - 1], labels[|labels| - 1];
      WithoutHolds(init, name);
      WithoutKeepsNoRepeats(init, name);
      assert last !in init;
      assert last !in Without(init, name);
    }
  }

  lemma AgreeUnlabelled(labels: seq<string>, timeline: seq<Event>, ev: Event)
    requires Agree(labels, timeline) && ev.event == "unlabeled" && LabelName(ev) in labels
    ensures Agree(Without(labels, LabelName(ev)), timeline + [ev])
  {
    hide NameAgrees, Without;
    assert (timeline + [ev])[..|timeline|] == timeline;
    WithoutHolds(labels, LabelName(ev));
    WithoutKeepsNoRepeats(labels, LabelName(ev));
    forall name ensures NameAgrees(Without(labels, LabelName(ev)), timeline + [ev], name) {
      NameStep(labels, Without(labels, LabelName(ev)), timeline, ev, name);
    }
  }

  lemma AgreeOther(labels: seq<string>, timeline: seq<Event>, ev: Event)
    requires Agree(labels, timeline) && ev.event != "labeled" && ev.event != "unlabeled"
    ensures Agree(labels, timeline + [ev])
  {
    var longer := timeline + [ev];
    assert longer[..|timeline|] == timeline;
    forall name ensures NameAgrees(labels, longer, name) {
      assert NameAgrees(labels, timeline, name) && Marks(longer, name) == Marks(timeline, name);
    }
  }

  lemma RecordKeepsIncreasing(t: Tracker, number: nat, event: string, labelName: string, actor: Actor, now: Time)
    requires forall n :: Increasing(t.Timeline(n), t.nextEventID)
    ensures var u := Recorded(t, number, event, labelName, actor, now);
      && (forall n :: Increasing(u.Timeline(n), u.nextEventID))
      && (forall n | n != number :: u.Timeline(n) == t.Timeline(n))
      && |u.Timeline(number)| == |t.Timeline(number)| + 1
      && u.Timeline(number) == t.Timeline(number) + [u.Timeline(number)[|t.Timeline(number)|]]
  {
    var u := Recorded(t, number, event, labelName, actor, now);
    forall n ensures Increasing(u.Timeline(n), u.nextEventID) {
      assert Increasing(t.Timeline(n), t.nextEventID);
    }
  }

  /** One issue's record replaced, and one event of it recorded. */
  lemma ChangeKeepsConsistent(
    t: Tracker, changed: IssueRecord, event: string, labelName: string, actor: Actor, now: Time)
    requires Consistent(t) && changed.number in t.issues
    requires var u := Recorded(t, changed.number, event, labelName, actor, now);
      Agree(changed.labels, u.Timeline(changed.number))
    ensures var v := t.(issues := t.issues[changed.number := changed]);
      Consistent(Recorded(v, changed.number, event, labelName, actor, now))
  {
    hide Agree, Increasing;
    RecordKeepsIncreasing(t, changed.number, event, labelName, actor, now);
    var u := Recorded(t, changed.number, event, labelName, actor, now);
    var v := Recorded(t.(issues := t.issues[changed.number := changed]), changed.number, event, labelName, actor, now);
    assert forall n :: v.Timeline(n) == u.Timeline(n);
  }

  lemma StepKeepsConsistent(t: Tracker, op: Op)
    requires Consistent(t)
    ensures Consistent(Step(t, op))
  {
    hide Agree, Increasing, Recorded, Consistent;
    if op.Open? {
      OpenKeepsConsistent(t, op.o, op.now);
    } else if op.OpenPull? || op.AddComment? {
      AsideKeepsConsistent(t, op);
    } else if op.number in t.issues {
      ChangedStepKeepsConsistent(t, op);
    }
  }

  lemma OpenKeepsConsistent(t: Tracker, o: Opening, now: Time)
    requires Consistent(t)
    ensures Consistent(Opened(t, o, now))
  {
    hide Agree, Increasing;
    AgreeNew();
    var u := Opened(t, o, now);
    assert forall n :: u.Timeline(n) == t.Timeline(n);
    assert t.next + 1 !in t.issues;
  }

  lemma RecordedChangeKeepsConsistent(
    t: Tracker, changed: IssueRecord, event: string, labelName: string, actor: Actor, now: Time)
    requires Consistent(t) && changed.number in t.issues
    requires Agree(
               changed.labels, t.Timeline(changed.number) + [NewEvent(t.nextEventID + 1, event, labelName, actor, now)])
    ensures var v := t.(issues := t.issues[changed.number := changed]);
      Consistent(Recorded(v, changed.number, event, labelName, actor, now))
  {
    hide Agree, Consistent, NewEvent;
    ChangeKeepsConsistent(t, changed, event, labelName, actor, now);
  }

  lemma IssueAgrees(t: Tracker, n: nat)
    requires Consistent(t) && n in t.issues
    ensures t.issues[n].number == n && Agree(t.issues[n].labels, t.Timeline(n))
  {}

  lemma LabelledKeepsConsistent(t: Tracker, n: nat, name: string, actor: Actor, clock: Clock)
    requires Consistent(t) && n in t.issues
    ensures Consistent(Labelled(t, n, name, actor, clock))
  {
    hide Agree, Touched, Recorded, Consistent;
    var issue := t.issues[n];
    IssueAgrees(t, n);
    TouchKeeps();
    if name !in issue.labels {
      AgreeLabelled(issue.labels, t.Timeline(n), NewEvent(t.nextEventID + 1, "labeled", name, actor, clock.record));
      RecordedChangeKeepsConsistent(
        t, Touched(issue.(labels := issue.labels + [name]), clock.touch), "labeled", name, actor, clock.record);
    }
  }

  lemma UnlabelledKeepsConsistent(t: Tracker, n: nat, name: string, actor: Actor, clock: Clock)
    requires Consistent(t) && n in t.issues
    ensures Consistent(Unlabelled(t, n, name, actor, clock))
  {
    hide Agree, Touched, Recorded, Consistent;
    var issue := t.issues[n];
    IssueAgrees(t, n);
    TouchKeeps();
    if name in issue.labels {
      AgreeUnlabelled(issue.labels, t.Timeline(n), NewEvent(t.nextEventID + 1, "unlabeled", name, actor, clock.record));
      RecordedChangeKeepsConsistent(
        t, Touched(issue.(labels := Without(issue.labels, name)), clock.touch), "unlabeled", name, actor, clock.record);
    }
  }

  lemma StateSetKeepsConsistent(t: Tracker, n: nat, state: string, reason: string, actor: Actor, clock: Clock)
    requires Consistent(t) && n in t.issues
    ensures Consistent(StateSet(t, n, state, reason, actor, clock))
  {
    hide Agree, Touched, Recorded, Consistent;
    var issue := t.issues[n];
    IssueAgrees(t, n);
    TouchKeeps();
    var changed := Touched(
      issue.(state := state, stateReason := if state == "open" then "" else reason), clock.touch);
    SilentChangeKeepsConsistent(t, changed);
    if state == "closed" || state == "open" {
      var event := if state == "closed" then "closed" else "reopened";
      AgreeOther(issue.labels, t.Timeline(n), NewEvent(t.nextEventID + 1, event, "", actor, clock.record));
      RecordedChangeKeepsConsistent(t, changed, event, "", actor, clock.record);
    }
  }

  lemma ChangedStepKeepsConsistent(t: Tracker, op: Op)
    requires Consistent(t) && !op.Open? && !op.OpenPull? && !op.AddComment?
    requires op.number in t.issues
    ensures Consistent(Step(t, op))
  {
    hide Agree, Consistent, Touched, Labelled, Unlabelled, StateSet;
    var issue := t.issues[op.number];
    IssueAgrees(t, op.number);
    TouchKeeps();
    match op
    case AddLabel(n, name, actor, clock) => LabelledKeepsConsistent(t, n, name, actor, clock);
    case RemoveLabel(n, name, actor, clock) => UnlabelledKeepsConsistent(t, n, name, actor, clock);
    case SetState(n, state, reason, actor, clock) => StateSetKeepsConsistent(t, n, state, reason, actor, clock);
    case ForceState(_, state, now) =>
      SilentChangeKeepsConsistent(t, Touched(issue.(state := state), now));
    case EditBody(_, body, now) =>
      SilentChangeKeepsConsistent(t, Touched(issue.(body := body), now));
    case Assign(_, logins, now) =>
      SilentChangeKeepsConsistent(t, Touched(issue.(assignees := issue.assignees + logins), now));
  }

  /** Comments and pull requests leave labels and timelines alone. */
  lemma AsideKeepsConsistent(t: Tracker, op: Op)
    requires Consistent(t) && (op.OpenPull? || op.AddComment?)
    ensures Consistent(Step(t, op))
  {
    hide Agree, Increasing, Touched, NewComment;
    TouchKeeps();
    var u := Step(t, op);
    assert forall n :: u.Timeline(n) == t.Timeline(n);
  }

  lemma SilentChangeKeepsConsistent(t: Tracker, changed: IssueRecord)
    requires Consistent(t) && changed.number in t.issues && changed.labels == t.issues[changed.number].labels
    ensures Consistent(t.(issues := t.issues[changed.number := changed]))
  {
    hide Agree, Increasing;
    var u := t.(issues := t.issues[changed.number := changed]);
    assert forall n :: u.Timeline(n) == t.Timeline(n);
    forall n | n in u.issues
      ensures n <= u.next && u.issues[n].number == n && Agree(u.issues[n].labels, u.Timeline(n))
    {
      IssueAgrees(t, n);
    }
  }

  lemma TouchKeeps()
    ensures forall issue, now {:trigger Touched(issue, now)} ::
      && Touched(issue, now).number == issue.number && Touched(issue, now).labels == issue.labels
      && Touched(issue, now).comments == issue.comments && Touched(issue, now).updatedAt >= issue.updatedAt
  {}

  lemma {:induction false} RunIsConsistent(ops: seq<Op>)
    ensures Consistent(Run(ops))
  {
    hide Step, Consistent;
    if ops == [] {
      NewIsConsistent();
    } else {
      RunIsConsistent(ops[..|ops| - 1]);
      StepKeepsConsistent(Run(ops[..|ops| - 1]), ops[|ops| - 1]);
    }
  }

  lemma NewIsConsistent()
    ensures Consistent(NEW_TRACKER)
  {}

  /** The timeline says everything about the labels, for every issue of every run. */
  lemma {:induction false} TimelineRebuildsLabels(ops: seq<Op>, number: nat)
    requires number in Run(ops).issues
    ensures var t := Run(ops); var labels, timeline := t.issues[number].labels, t.Timeline(number);
      && Rebuilt(timeline) == labels
      && NoRepeats(labels)
      && (forall name :: Alternates(Marks(timeline, name)))
      && (forall i, j | 0 <= i < j < |timeline| :: timeline[i].id < timeline[j].id)
  {
    RunIsConsistent(ops);
    var t := Run(ops);
    assert Agree(t.issues[number].labels, t.Timeline(number));
    assert Increasing(t.Timeline(number), t.nextEventID);
    forall name ensures Alternates(Marks(t.Timeline(number), name)) {
      assert NameAgrees(t.issues[number].labels, t.Timeline(number), name);
    }
  }

  /** Opening an issue with labels is a run of the steps above. */
  lemma {:induction false} OpeningIsARun(ops: seq<Op>, o: Opening, now: Time, labels: seq<string>, clocks: seq<Clock>)
    returns (more: seq<Op>)
    requires |labels| == |clocks|
    ensures Run(more) == OpenedWith(Run(ops), o, now, labels, clocks)
    decreases |labels|
  {
    if labels == [] {
      more := ops + [Open(o, now)];
      assert more[..|ops|] == ops;
    } else {
      var n := |labels| - 1;
      var before := OpeningIsARun(ops, o, now, labels[..n], clocks[..n]);
      more := before + [AddLabel(Run(ops).next + 1, labels[n], o.author, clocks[n])];
      assert more[..|before|] == before;
    }
  }

  lemma RecordedGrows(t: Tracker, number: nat, event: string, labelName: string, actor: Actor, now: Time, n: nat)
    ensures var u := Recorded(t, number, event, labelName, actor, now);
      && t.Timeline(n) <= u.Timeline(n)
      && u.issues == t.issues && u.comments == t.comments && u.nextCommentID == t.nextCommentID
  {
    hide NewEvent;
  }

  /** Whatever the clock reads, no step moves an issue's updated_at back or drops an issue. */
  lemma UpdatedNeverGoesBack(t: Tracker, op: Op, number: nat)
    requires Consistent(t) && number in t.issues
    ensures number in Step(t, op).issues
    ensures t.issues[number].updatedAt <= Step(t, op).issues[number].updatedAt
    ensures t.Timeline(number) <= Step(t, op).Timeline(number)
  {
    assert number <= t.next;
    hide Step, Consistent;
    if op.Open? || op.OpenPull? || op.AddComment? {
      AsideNeverGoesBack(t, op, number);
    } else if op.number in t.issues {
      EventsGrow(t, op);
    } else {
      MissingIssueChangesNothing(t, op);
    }
  }

  lemma MissingIssueChangesNothing(t: Tracker, op: Op)
    requires !op.Open? && !op.OpenPull? && !op.AddComment? && op.number !in t.issues
    ensures Step(t, op) == t
  {}

  lemma AsideNeverGoesBack(t: Tracker, op: Op, number: nat)
    requires (op.Open? || op.OpenPull? || op.AddComment?) && number in t.issues && number <= t.next
    ensures number in Step(t, op).issues
    ensures t.issues[number].updatedAt <= Step(t, op).issues[number].updatedAt
    ensures t.Timeline(number) <= Step(t, op).Timeline(number)
  {
    hide Touched, NewComment, NewRecord;
    TouchKeeps();
  }

  /** No issue is dropped or made older, none counts other comments, and timelines only grow. */
  ghost predicate Grows(t: Tracker, u: Tracker) {
    && u.issues.Keys == t.issues.Keys
    && (forall n | n in t.issues ::
          t.issues[n].updatedAt <= u.issues[n].updatedAt && u.issues[n].comments == t.issues[n].comments)
    && (forall n :: t.Timeline(n) <= u.Timeline(n))
    && u.comments == t.comments && u.nextCommentID == t.nextCommentID
  }

  lemma OneChangeGrows(t: Tracker, n: nat, changed: IssueRecord)
    requires n in t.issues && t.issues[n].updatedAt <= changed.updatedAt && changed.comments == t.issues[n].comments
    ensures Grows(t, t.(issues := t.issues[n := changed]))
  {}

  lemma RecordingGrows(
    t: Tracker, n: nat, changed: IssueRecord, event: string, labelName: string, actor: Actor, now: Time)
    requires n in t.issues && t.issues[n].updatedAt <= changed.updatedAt && changed.comments == t.issues[n].comments
    ensures Grows(t, Recorded(t.(issues := t.issues[n := changed]), n, event, labelName, actor, now))
  {
    var v := t.(issues := t.issues[n := changed]);
    OneChangeGrows(t, n, changed);
    forall m ensures v.Timeline(m) <= Recorded(v, n, event, labelName, actor, now).Timeline(m) {
      RecordedGrows(v, n, event, labelName, actor, now, m);
    }
    RecordedGrows(v, n, event, labelName, actor, now, n);
  }

  lemma EventsGrow(t: Tracker, op: Op)
    requires !op.Open? && !op.OpenPull? && !op.AddComment? && op.number in t.issues
    ensures Grows(t, Step(t, op))
  {
    hide Without, Recorded, Touched, Grows;
    var n, issue := op.number, t.issues[op.number];
    assert Grows(t, t) by {
      GrowsFromItself(t);
    }
    TouchKeeps();
    match op
    case AddLabel(_, name, actor, clock) =>
      RecordingGrows(
        t, n, Touched(issue.(labels := issue.labels + [name]), clock.touch), "labeled", name, actor, clock.record);
    case RemoveLabel(_, name, actor, clock) =>
      var changed := Touched(issue.(labels := Without(issue.labels, name)), clock.touch);
      RecordingGrows(t, n, changed, "unlabeled", name, actor, clock.record);
    case SetState(_, state, reason, actor, clock) =>
      var changed := Touched(
        issue.(state := state, stateReason := if state == "open" then "" else reason), clock.touch);
      OneChangeGrows(t, n, changed);
      RecordingGrows(t, n, changed, if state == "closed" then "closed" else "reopened", "", actor, clock.record);
    case ForceState(_, state, now) =>
      OneChangeGrows(t, n, Touched(issue.(state := state), now));
    case EditBody(_, body, now) =>
      OneChangeGrows(t, n, Touched(issue.(body := body), now));
    case Assign(_, logins, now) =>
      OneChangeGrows(t, n, Touched(issue.(assignees := issue.assignees + logins), now));
  }

  lemma GrowsFromItself(t: Tracker)
    ensures Grows(t, t)
  {}

  lemma {:induction false} UpdatedIsMonotone(ops: seq<Op>, more: seq<Op>, number: nat)
    requires number in Run(ops).issues
    ensures number in Run(ops + more).issues
    ensures Run(ops).issues[number].updatedAt <= Run(ops + more).issues[number].updatedAt
    ensures Run(ops).Timeline(number) <= Run(ops + more).Timeline(number)
  {
    hide Step, Consistent;
    if more == [] {
      assert ops + more == ops;
    } else {
      var n := |more| - 1;
      UpdatedIsMonotone(ops, more[..n], number);
      assert (ops + more)[..|ops| + n] == ops + more[..n];
      RunIsConsistent(ops + more[..n]);
      UpdatedNeverGoesBack(Run(ops + more[..n]), more[n], number);
    }
  }

  // ---- comments ----

  /** Comments made under a number before any issue took it. */
  function EarlyComments(ops: seq<Op>, number: nat): nat {
    if ops == [] then 0
    else
      var before, op := ops[..|ops| - 1], ops[|ops| - 1];
      EarlyComments(before, number)
      + (if op.AddComment? && op.number == number && number !in Run(before).issues then 1 else 0)
  }

  ghost predicate IncreasingComments(comments: seq<Comment>, top: nat) {
    && (forall i, j | 0 <= i < j < |comments| :: comments[i].id < comments[j].id)
    && (forall i | 0 <= i < |comments| :: comments[i].id <= top)
  }

  lemma CommentStep(t: Tracker, op: Op, number: nat, early: nat)
    requires Consistent(t)
    requires IncreasingComments(t.CommentsOn(number), t.nextCommentID)
    requires |t.CommentsOn(number)| == early + if number in t.issues then t.issues[number].comments else 0
    ensures var u := Step(t, op);
      var more := if op.AddComment? && op.number == number && number !in t.issues then 1 else 0;
      && IncreasingComments(u.CommentsOn(number), u.nextCommentID)
      && |u.CommentsOn(number)| == early + more + if number in u.issues then u.issues[number].comments else 0
  {
    hide Agree, Increasing, Touched, CommentURL, Consistent;
    TouchKeeps();
    if !op.AddComment? {
      OtherStepsKeepComments(t, op, number);
    }
  }

  lemma OtherStepsKeepComments(t: Tracker, op: Op, number: nat)
    requires Consistent(t) && !op.AddComment?
    ensures var u := Step(t, op);
      && u.comments == t.comments && u.nextCommentID == t.nextCommentID
      && (if number in u.issues then u.issues[number].comments else 0)
         == if number in t.issues then t.issues[number].comments else 0
  {
    assert number in t.issues ==> number <= t.next;
    hide Agree, Increasing, Without, Recorded, Touched, Consistent;
    if op.Open? || op.OpenPull? {
    } else if op.number in t.issues {
      EventsGrow(t, op);
    }
  }

  /** Every comment is kept once under its number, in the order of their ids, and an issue counts
      all those made since it was opened. */
  lemma {:induction false} CommentsAreCounted(ops: seq<Op>, number: nat)
    ensures var t := Run(ops);
      && IncreasingComments(t.CommentsOn(number), t.nextCommentID)
      && |t.CommentsOn(number)|
         == EarlyComments(ops, number) + if number in t.issues then t.issues[number].comments else 0
  {
    if ops != [] {
      hide Step, Consistent;
      var before := ops[..|ops| - 1];
      CommentsAreCounted(before, number);
      RunIsConsistent(before);
      CommentStep(Run(before), ops[|ops| - 1], number, EarlyComments(before, number));
    }
  }
}
