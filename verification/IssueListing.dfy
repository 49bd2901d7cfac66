/** The issue listing: a filter over a map of issues in no fixed order, then a
    sort whose comparison must erase that order. */
module IssueListing {
  import opened Text
  import opened IssueTimeline

  function CompareTimes(a: Time, b: Time): int {
    if a < b then -1 else if a > b then 1 else 0
  }

  function SortKey(sort: string, a: IssueRecord, b: IssueRecord): int {
    if sort == "updated" then CompareTimes(a.updatedAt, b.updatedAt)
    else if sort == "comments" then a.comments - b.comments
    else CompareTimes(a.createdAt, b.createdAt)
  }

  function IssueOrder(sort: string, direction: string, a: IssueRecord, b: IssueRecord): int {
    var sign := if direction == "asc" then 1 else -1;
    var c := SortKey(sort, a, b);
    if c != 0 then sign * c else sign * (a.number - b.number)
  }

  /** The comparison is a strict total order on issues with different numbers,
      and descending is ascending turned round. */
  lemma OrderIsStrictAndTotal(sort: string, direction: string, a: IssueRecord, b: IssueRecord, c: IssueRecord)
    ensures IssueOrder(sort, direction, a, a) == 0
    ensures a.number != b.number ==> IssueOrder(sort, direction, a, b) != 0
    ensures IssueOrder(sort, direction, a, b) < 0 <==> IssueOrder(sort, direction, b, a) > 0
    ensures IssueOrder(sort, direction, a, b) < 0 && IssueOrder(sort, direction, b, c) < 0
            ==> IssueOrder(sort, direction, a, c) < 0
    ensures direction != "asc" ==> (IssueOrder(sort, direction, a, b) < 0 <==> IssueOrder(sort, "asc", b, a) < 0)
  {}

  predicate Listed(out: seq<IssueRecord>, sort: string, direction: string) {
    forall i, j | 0 <= i < j < |out| :: IssueOrder(sort, direction, out[i], out[j]) < 0
  }

  /** However the issues were collected, there is one sorted listing of them. */
  lemma {:induction false} ListingIsUnique(a: seq<IssueRecord>, b: seq<IssueRecord>, sort: string, direction: string)
    requires Listed(a, sort, direction) && Listed(b, sort, direction)
    requires forall x :: x in a <==> x in b
    ensures a == b
  {
    assert b == [] || b[0] in b;
    if a != [] {
      assert a[0] in b && b[0] in a;
      FirstIsLeast(a, b[0], sort, direction);
      FirstIsLeast(b, a[0], sort, direction);
      OrderIsStrictAndTotal(sort, direction, a[0], b[0], a[0]);
      assert a[0] == b[0];
      forall x ensures x in a[1..] <==> x in b[1..] {
        NotAgain(a, x, sort, direction);
        NotAgain(b, x, sort, direction);
      }
      ListingIsUnique(a[1..], b[1..], sort, direction);
    }
  }

  lemma FirstIsLeast(a: seq<IssueRecord>, x: IssueRecord, sort: string, direction: string)
    requires Listed(a, sort, direction) && x in a
    ensures x == a[0] || IssueOrder(sort, direction, a[0], x) < 0
  {}

  lemma NotAgain(a: seq<IssueRecord>, x: IssueRecord, sort: string, direction: string)
    requires Listed(a, sort, direction) && a != []
    ensures x in a[1..] <==> x in a && x != a[0]
  {}

  function KeyOf(sort: string, r: IssueRecord): nat {
    match sort
    case "updated" => r.updatedAt
    case "comments" => r.comments
    case _ => r.createdAt
  }

  predicate Before(sort: string, a: IssueRecord, b: IssueRecord) {
    KeyOf(sort, a) < KeyOf(sort, b) || (KeyOf(sort, a) == KeyOf(sort, b) && a.number < b.number)
  }

  /** A listing runs by the requested key and then by number, both upwards or both downwards. */
  lemma ListingRunsByKeyThenNumber(out: seq<IssueRecord>, sort: string, direction: string)
    requires Listed(out, sort, direction)
    ensures forall i, j | 0 <= i < j < |out| ::
      if direction == "asc" then Before(sort, out[i], out[j]) else Before(sort, out[j], out[i])
  {
    forall i, j | 0 <= i < j < |out|
      ensures if direction == "asc" then Before(sort, out[i], out[j]) else Before(sort, out[j], out[i])
    {
      assert IssueOrder(sort, direction, out[i], out[j]) < 0;
    }
  }

  function Reversed(s: seq<IssueRecord>): (r: seq<IssueRecord>)
    ensures |r| == |s| && forall i | 0 <= i < |s| :: r[i] == s[|s| - 1 - i]
  {
    seq(|s|, i requires 0 <= i < |s| => s[|s| - 1 - i])
  }

  /** The descending listing of the same issues is the ascending one reversed. */
  lemma DescendingIsReversed(up: seq<IssueRecord>, down: seq<IssueRecord>, sort: string, direction: string)
    requires direction != "asc"
    requires Listed(up, sort, "asc") && Listed(down, sort, direction)
    requires forall x :: x in up <==> x in down
    ensures down == Reversed(up)
  {
    var back := Reversed(up);
    forall i, j | 0 <= i < j < |back| ensures IssueOrder(sort, direction, back[i], back[j]) < 0 {
      OrderIsStrictAndTotal(sort, direction, back[i], back[j], back[j]);
    }
    forall x ensures x in back <==> x in down {
      if x in up {
        var i :| 0 <= i < |up| && up[i] == x;
        assert back[|up| - 1 - i] == x;
      }
    }
    ListingIsUnique(back, down, sort, direction);
  }

  // ---- the request ----

  function SplitLabels(s: string): seq<string> {
    if s == "" then [] else Split(s, ',')
  }

  predicate HasLabels(labels: seq<string>, want: seq<string>) {
    forall w | w in want :: w in labels
  }

  predicate Wanted(r: IssueRecord, labels: string, state: string) {
    var state := if state == "" then "open" else state;
    (state == "all" || r.state == state) && HasLabels(r.labels, SplitLabels(labels))
  }

  ghost predicate DifferentNumbers(out: seq<IssueRecord>) {
    forall i, j | 0 <= i < j < |out| :: out[i].number != out[j].number
  }

  /** Stands for slices.SortFunc, which promises no more than a sorted rearrangement. */
  method SortFunc(issues: seq<IssueRecord>, sort: string, direction: string) returns (out: seq<IssueRecord>)
    requires DifferentNumbers(issues)
    ensures Listed(out, sort, direction)
    ensures forall x :: x in out <==> x in issues
  {
    out := [];
    for k := 0 to |issues|
      invariant Listed(out, sort, direction)
      invariant forall x :: x in out <==> x in issues[..k]
    {
      var x := issues[k];
      var i := 0;
      while i < |out| && IssueOrder(sort, direction, out[i], x) < 0
        invariant 0 <= i <= |out|
        invariant forall j | 0 <= j < i :: IssueOrder(sort, direction, out[j], x) < 0
      {
        i := i + 1;
      }
      assert x !in issues[..k] && forall y | y in issues[..k] :: y.number != x.number;
      InsertListed(out, x, i, sort, direction);
      assert issues[..k + 1] == issues[..k] + [x];
      ghost var before := out;
      out := out[..i] + [x] + out[i..];
      assert before == before[..i] + before[i..];
    }
    assert issues[..|issues|] == issues;
  }

  lemma InsertListed(out: seq<IssueRecord>, x: IssueRecord, i: nat, sort: string, direction: string)
    requires Listed(out, sort, direction) && i <= |out|
    requires forall y | y in out :: y.number != x.number
    requires forall j | 0 <= j < i :: IssueOrder(sort, direction, out[j], x) < 0
    requires i < |out| ==> IssueOrder(sort, direction, out[i], x) >= 0
    ensures Listed(out[..i] + [x] + out[i..], sort, direction)
  {
    hide IssueOrder;
    var longer := out[..i] + [x] + out[i..];
    forall k | i <= k < |out| ensures IssueOrder(sort, direction, x, out[k]) < 0 {
      assert out[i] in out;
      OrderIsStrictAndTotal(sort, direction, out[i], x, x);
      OrderIsStrictAndTotal(sort, direction, x, out[i], out[k]);
    }
    forall j, k | 0 <= j < k < |longer| ensures IssueOrder(sort, direction, longer[j], longer[k]) < 0 {
      assert longer[j] == if j < i then out[j] else if j == i then x else out[j - 1];
      assert longer[k] == if k < i then out[k] else if k == i then x else out[k - 1];
    }
  }

  /** The map is read in no fixed order; the listing does not show it. */
  method ListIssues(server: Server, labels: string, state: string, sort: string, direction: string)
    returns (out: seq<IssueRecord>)
    requires server.Valid()
    ensures Listed(out, sort, direction)
    ensures DifferentNumbers(out)
    ensures forall n | n in server.issues :: var r := server.issues[n].Record();
      r in out <==>
        && (state == "all" || r.state == if state == "" then "open" else state)
        && (labels != "" ==> forall w | w in Split(labels, ',') :: w in r.labels)
    ensures forall r | r in out :: exists n :: n in server.issues && r == server.issues[n].Record()
  {
    var found: seq<IssueRecord> := [];
    var left := server.issues.Keys;
    while left != {}
      invariant left <= server.issues.Keys
      invariant DifferentNumbers(found)
      invariant forall r | r in found :: r.number in server.issues.Keys - left
      invariant forall r :: r in found <==>
        exists n :: n in server.issues.Keys - left && r == server.issues[n].Record() && Wanted(r, labels, state)
      decreases left
    {
      var n :| n in left;
      var r := server.issues[n].Record();
      ghost var before, done := found, server.issues.Keys - left;
      left := left - {n};
      assert server.issues.Keys - left == done + {n};
      if Wanted(r, labels, state) {
        found := found + [r];
      }
    }
    out := SortFunc(found, sort, direction);
    forall n | n in server.issues
      ensures server.issues[n].Record() in out <==> Wanted(server.issues[n].Record(), labels, state)
    {
      assert server.issues[n].Record().number == n;
    }
    forall i, j | 0 <= i < j < |out| ensures out[i].number != out[j].number {
      assert IssueOrder(sort, direction, out[i], out[j]) < 0;
      assert out[i] in out && out[j] in out;
    }
  }
}
