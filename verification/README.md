# Maul: phase machines, previews, the Git store and run names, verified

A Dafny model of the parts of maul whose correctness is a property of whole runs
or of every input: the two phase machines, the preview derivation and its routing,
the in-memory GitHub and OIDC servers the end-to-end suite drives, the run names
and the changeset an agent run reports.

| file | what it models |
|---|---|
| `IntentPhases.dfy` | the Intent edge table, `SetIntentPhase` with its 64-entry log, `IntentBlockedFrom` |
| `FindingPhases.dfy` | the Finding edge table, `SetPhase`, `RetryTarget`, `RetryRequested` |
| `PreviewRouting.dfy` | Ingress Prefix matching on strings, the longest-prefix route |
| `PreviewComponents.dfy` | repository URL comparison, `EffectivePreviews`, `DesiredPreviewComponents` |
| `GitStore.dfy` | minted object names, blobs, trees and commits, refs, the write log, the ancestry search |
| `CommitDistance.dfy` | hops over the single-parent ancestry and the compare answer |
| `IssueTimeline.dfy` | issues changed in place, labels, states, bodies, assignees, events, `updated_at` |
| `IssueListing.dfy` | the listing's filter, comparison and sort |
| `CodeFlow.dfy` | authorization codes with PKCE, as interleaved critical regions |
| `RunNames.dfy` | Intent, IntentRun and tree Repository names, their parser and their budget |
| `Changesets.dfy` | the name-status diff, the changeset, what it does to a tree |
| `Text.dfy` | the string and decimal operations the rest needs |

State that the source updates in place is a class. Each method is proved to take the
object's abstract value to the value a step function gives; the theorems are about every
run of those steps. Values the source reads from outside, such as the clock, the random
code, the digest function and the lower-casing of letters, are parameters, and the theorems
hold for all of them.

Where the code and its own comments differ, the model follows the code, and says exactly when
the comment holds:

- `SameRepositoryURL` says it compares as the Project schema does. It does for every URL of the
  schema's pattern that does not end in a `.git` of another case, does not end in a space the
  pattern admits (a vertical tab, a no-break space) and holds no letter outside ASCII to lower.
  Each other one is compared otherwise with some such URL, unless its name is nothing but spaces
  and it holds such a letter (`PreviewComponents.ComparesLikeTheSchema`).
- `EffectivePreviews` says a Project the schema refuses previews nothing. It looks only for the
  faults its comment lists. A Project without those previews something against the schema exactly
  when a path is over 128 characters, two repositories share a name or a URL, there are more than
  eight, or a field breaks its own pattern or bound
  (`PreviewComponents.PreviewsWhenTheSchemaAllows`).
- `IntentRunTreeRepositoryName` says no run's own Repository can share a tree's name. That
  holds within one Intent. Across Intents, inside the budget, it fails exactly for the keys that
  read as the end of an own name, `a<attempt>-src` or `<issue>-plan-r<round>-a<attempt>-src` or
  `<issue>-rev<round>-<key>-a<attempt>-src` (`RunNames.WhichKeysCollide`).
- The comment on `RetryRequested` (api/v1alpha1/transitions.go:125-128) says a consumed retry can
  never re-fire. It is consumed again exactly when a later failure is stamped before it and then
  left (`FindingPhases.WhenRetryIsConsumedAgain`), which a clock that never runs back rules out.
- The comments beside the retry gates (internal/controller/investigation/gate_controller.go:311)
  say `RetryRequested` turns false once the retry is consumed. It stays true until a terminal
  phase is entered no earlier than the retry was recorded; the check for Failed beside it is what
  prevents a second consumption (`FindingPhases.RetryRequestedOutlivesConsumption`).
- The comment on the Intent table (api/v1alpha1/intent_types.go:118-119) lets a block resume only
  where it was entered. The table lets it resume anywhere; a run still walks the table, blocks
  aside, exactly when each exit goes back, along an edge from there, or to Merged
  (`IntentPhases.ProgressOfRun`).
- `steps` does not return exactly when the walk comes round to a commit it was at before without
  meeting the commit it looks for (`CommitDistance.HaltsUnlessItLoops`), and on a cycle `compare`
  answers "behind" both ways (`CommitDistance.CycleIsBehindBothWays`).

## Model

| member | source | states |
|---|---|---|
| IntentPhases.Intent.constructor | api/v1alpha1/intent_types.go:156-161 | a new Intent has the empty phase, an empty log and no completion time |
| IntentPhases.Intent.SetIntentPhase | api/v1alpha1/intent_types.go:194-215 | accepted exactly on table edges and self-transitions; a refusal or self-transition changes nothing; an accepted change appends the phase with the time given, keeps the last 64 entries, and sets completedAt to that time in Merged, Closed and Failed and clears it elsewhere; the reachable-state invariant survives |
| IntentPhases.OneMoreCall | api/v1alpha1/intent_types.go:187-215 | the same of one more call of any run |
| IntentPhases.Intent.IntentBlockedFrom | api/v1alpha1/intent_types.go:174-185 | for any log the scan returns the last entry that is not Blocked, and "" outside a block; on every reachable blocked Intent that is the full history's entry just before the block |
| IntentPhases.IntentEdgesByTarget | api/v1alpha1/intent_types.go:95-124 | the table read by target phase: blocks and closings come from every non-terminal phase, failures from Planning and Building only, merges from review, revision or a block, and so on for each phase |
| IntentPhases.RunIsFaithful | api/v1alpha1/intent_types.go:28-31 | after any run the stored log is the newest min(64, n) of the n entries ever made, the history walks the edge table into the current phase, and completedAt is set exactly in a terminal phase, to its entry time |
| IntentPhases.AdvanceKeepsFaithful | api/v1alpha1/intent_types.go:187-215 | one call keeps that invariant, whatever the call |
| IntentPhases.BlockedFromIsThePhaseBefore | api/v1alpha1/intent_types.go:169-185 | the truncated and the full log give the same blocked-from phase: the one before the block, non-terminal, with an edge back |
| IntentPhases.ReachableBlockedResumes | api/v1alpha1/intent_types.go:118-119 | every reachable blocked Intent has a phase to resume to and resuming to it is accepted |
| IntentPhases.MergedAndClosedAbsorb | api/v1alpha1/intent_types.go:137-145 | once Merged or Closed, no sequence of calls changes anything |
| IntentPhases.ProgressOfRun | api/v1alpha1/intent_types.go:89-140 | in every run the history without Blocked entries and resumptions is a walk of the table, a last step into Merged apart, exactly when each accepted exit from a block went to where it was entered, along an edge from there, or to Merged |
| IntentPhases.ResumingIsAllowed | api/v1alpha1/intent_types.go:118-119 | a run that leaves blocks only through IntentBlockedFrom meets that condition |
| IntentPhases.BuildsAreApproved | api/v1alpha1/intent_types.go:98-104 | in a run that meets that condition each Building is preceded by its own AwaitingApproval and that by its own Planning, and the three counts are ordered |
| IntentPhases.TableAloneSkipsApproval | api/v1alpha1/intent_types.go:133-136 | a run that breaks the condition: the table by itself lets a block resume into Building with no plan and no approval |
| FindingPhases.Finding.SetPhase | api/v1alpha1/transitions.go:144-161 | accepted exactly on table edges and self-transitions; a refusal or self-transition changes nothing; an accepted change appends the phase with the time given, and sets completedAt to that time in the four terminal phases and clears it elsewhere; the reachable-state invariant survives |
| FindingPhases.OneMoreCall | api/v1alpha1/transitions.go:138-161 | the same of one more call of any run |
| FindingPhases.Finding.RetryTarget | api/v1alpha1/transitions.go:105-123 | for any history the scan is decided by the last entry that is not Failed, and gives nothing outside a failure; on every reachable failure that is the entry just before it, and it names a phase |
| FindingPhases.EdgesByTarget | api/v1alpha1/transitions.go:35-53 | the table read by target phase: hand-offs from every non-terminal phase and from Dismissed, failures from the three working phases only, and so on for each phase |
| FindingPhases.RunIsRecorded | api/v1alpha1/transitions.go:54-81 | every history is a walk of the table ending in the phase, and completedAt is the entry time of a terminal phase |
| FindingPhases.ReachableFailureIsRetryable | api/v1alpha1/transitions.go:99-123 | a reachable Failed Finding failed from Investigating, Remediating or InReview; its retry target is Enhanced for the first and Queued for the others, however many failures came earlier, and moving there is accepted |
| FindingPhases.HistoryIsBounded | api/v1alpha1/transitions.go:54-70 | a history has at most 8 + 2·reverts + 7·terminal exits entries |
| FindingPhases.BoundIsAttained | api/v1alpha1/transitions.go:54-70 | for every number of reverts and of terminal exits some run has exactly that many entries |
| FindingPhases.WhenRetryIsRequested | api/v1alpha1/transitions.go:125-136 | in every run a recorded retry is actionable in each phase that is not terminal, and in a terminal one exactly when it was recorded after the time that phase was entered |
| FindingPhases.FailureOutdatesRetry | api/v1alpha1/transitions.go:125-128 | a failure leaves a recorded retry actionable exactly when it is stamped before the retry |
| FindingPhases.WhenRetryIsConsumedAgain | api/v1alpha1/transitions.go:125-136 | with no new retry recorded between, a consumed retry is consumed again exactly by leaving a failure that was entered after the first consumption and stamped before the retry |
| FindingPhases.RetryConsumedAtMostOnce | api/v1alpha1/transitions.go:125-136 | so under a clock that never runs backwards, between two consumptions of spec.retry a new one was recorded |
| FindingPhases.RetryRequestedOutlivesConsumption | api/v1alpha1/transitions.go:129-136 | after a retry is consumed, and until a new one is recorded, it is actionable exactly outside the terminal phases and in those entered before it was recorded; right after consumption it is, in a phase that is not Failed |
| FindingPhases.BackwardClockConsumesTwice | api/v1alpha1/transitions.go:125-136 | a run whose clock runs backwards in which one recorded retry is consumed twice |
| PreviewRouting.MatchIsElementwise | api/v1alpha1/preview_routing.go:40-58 | the string comparison holds exactly when the trimmed prefix's "/"-elements are a list prefix of the path's |
| PreviewRouting.TrailingSlashIsIgnored | api/v1alpha1/preview_routing.go:43-44 | trailing slashes on the path do not matter either |
| PreviewRouting.MatchesAreComparable | api/v1alpha1/preview_routing.go:60-64 | two prefixes of one path extend one another, and are equal exactly when equally long |
| PreviewRouting.PreviewRoute | api/v1alpha1/preview_routing.go:65-74 | -1 exactly when nothing matches, else the first match whose elements extend every match's |
| PreviewRouting.RouteIsUnique | api/v1alpha1/preview_routing.go:60-64 | that description fits one index only |
| PreviewRouting.RouteIgnoresOrder | api/v1alpha1/preview_routing.go:60-64 | for prefixes distinct once trimmed, reordering the list never changes the prefix chosen |
| PreviewComponents.ComparesLikeTheSchema | api/v1alpha1/preview_components.go:28-39 | for any lower-casing of letters beyond ASCII, a URL of the schema's pattern is compared as the schema's rule compares it, against every plainly spelled one, exactly when it is itself plainly spelled, or has a blank name and a letter outside ASCII to lower |
| PreviewComponents.OddURLs | api/v1alpha1/project_types.go:356 | URLs of the schema's pattern that are not plainly spelled: one ending in ".GIT", one in a no-break space |
| PreviewComponents.NormalizedIsSchemaKey | api/v1alpha1/project_types.go:356 | the normalized form equals the schema rule's key exactly when the URL does not end in a space or in a ".git" of another case and holds no letter outside ASCII to lower |
| PreviewComponents.PreviewsWhenChecked | api/v1alpha1/preview_components.go:54-59 | something is previewed exactly when the Project asks for it and meets the rules the code checks; then at most four, at different well-formed paths |
| PreviewComponents.PreviewsWhenTheSchemaAllows | api/v1alpha1/project_types.go:316-318 | a Project that asks for a preview and passes the checks previews something against the schema exactly when a path is overlong, a name or a URL is repeated, there are more than eight repositories or a field breaks its own rule; in every other case something is previewed exactly when the Project asks for it and everything the schema says of its repositories and previews holds |
| PreviewComponents.EffectivePreviews | api/v1alpha1/preview_components.go:60-88 | the loop with its early refusals returns the opted-in repositories in order when the rules hold, else nothing |
| PreviewComponents.WhatIsPreviewed | api/v1alpha1/preview_components.go:52-88 | told of the Project alone: the shorthand previews its one repository at the root when that one does not opt in as well; otherwise all repositories that opt in are previewed, in order, exactly when they are one to four, at different plain paths |
| PreviewComponents.PathPatternIsPlain | api/v1alpha1/preview_components.go:23-26 | the pattern is met exactly by the root and by paths of lower-case letters, digits and dashes with no slash at the end and no two together |
| PreviewComponents.PreviewedInProjectOrder | api/v1alpha1/preview_components.go:69-83 | the previewed repositories are exactly those that opt in, at strictly increasing positions of the Project, each with its own name, URL, contract and effective path |
| PreviewComponents.ShorthandIsRootPreview | api/v1alpha1/project_types.go:366-375 | the shorthand equals that one repository previewed at "/" |
| PreviewComponents.OverlongPathIsPreviewed | api/v1alpha1/project_types.go:458-460 | a Project with a path of 129 characters breaks the schema's rules and is previewed |
| PreviewComponents.RepeatedURLIsPreviewed | api/v1alpha1/project_types.go:356 | a Project with two repositories of one URL breaks the schema's rules and gets a component for each |
| PreviewComponents.PullRequestDecides | api/v1alpha1/preview_components.go:153-168 | the first pull request in the repository decides whatever its head, only without any the first recorded base does, and without that there is no revision |
| PreviewComponents.DesiredPreviewComponents | api/v1alpha1/preview_components.go:122-151 | the loop with its early refusals returns the components of the previewed repositories in order, or none |
| PreviewComponents.WhenAListIsDerived | api/v1alpha1/preview_components.go:107-151 | a reachable Intent has a list exactly when it is in review or revising, or was when blocked, a pull request is open, something is previewed, each previewed repository has a 40-hex commit from its first pull request or, without one, its first base, and one of them has a pull request |
| PreviewComponents.SameAsTheSchema | api/v1alpha1/preview_components.go:28-39 | the comparison the derivation uses is the schema rule's for plainly spelled URLs |
| PreviewComponents.DerivedComponents | api/v1alpha1/preview_types.go:100-110 | every returned list has 1 to 4 components, one per previewed repository in order, each running that repository's contract at its path and recorded 40-hex revision, one of them a pull request head, with pairwise different effective paths, no written-out root, and pairwise different names when the Project's repositories have them |
| PreviewComponents.DerivedRoutingIsUnambiguous | api/v1alpha1/preview_routing.go:60-74 | over a derived list every other match is strictly shorter than the route, and a root component serves every request |
| PreviewComponents.BlockingIsTransparent | api/v1alpha1/preview_components.go:90-105 | blocking any reachable non-terminal Intent and resuming it leaves the wish for a preview and the derived list unchanged at each step, truncated log or not |
| GitStore.ObjectNameShape | e2e/fakegithub/gitdata.go:173-176 | a name is its kind 33 times and its number in digits, 40 characters for the first ten million numbers |
| GitStore.ObjectNameIsFresh | e2e/fakegithub/gitdata.go:173-176 | different numbers give different object names of a kind |
| GitStore.Server.Mint | e2e/fakegithub/gitdata.go:173-176 | the next number is spent on the name and nothing else changes |
| GitStore.Server.CreateBlob | e2e/fakegithub/gitdata.go:268-271 | the content is kept under a name that, in a reachable store, is new |
| GitStore.Server.CreateTree | e2e/fakegithub/gitdata.go:288-300 | the tree of the entries, of two for one path the later and a null one as a deletion, is kept under a new name |
| GitStore.LastEntryCounts | e2e/fakegithub/gitdata.go:290-297 | the last entry for a path decides what the tree says of it |
| GitStore.Server.CommitOf | e2e/fakegithub/gitdata.go:100-116 | message and parents of a pushed commit, and for each path of its tree the blob's content, none for a deletion, in whatever order the paths are visited |
| GitStore.PushedObjectsAreKept | e2e/fakegithub/gitdata.go:173-176 | in every run no blob, tree or commit is ever overwritten |
| GitStore.CommitReadsBack | e2e/fakegithub/gitdata.go:97-116 | a commit pushed with all its objects reads back with its message, parents and files after any further run |
| GitStore.Server.CreateCommit | e2e/fakegithub/gitdata.go:303-318 | message, tree and parents are kept under a name that, in a reachable store, is new, and no ancestry is lost |
| GitStore.Server.Descends | e2e/fakegithub/gitdata.go:430-454 | on every graph, cyclic ones included, the search ends and answers true exactly when a non-empty chain of parent edges leads to the ancestor |
| GitStore.Server.CreateRef | e2e/fakegithub/gitdata.go:329-357 | refused for a ref that resolves, then for a commit that is not the base, pushed, named in an ancestry or pointed at by a ref; else 201, the ref alone moves there; logged as answered |
| GitStore.WhatCreateRefDoes | e2e/fakegithub/gitdata.go:329-357 | the same of the step that the runs are made of |
| GitStore.Server.UpdateRef | e2e/fakegithub/gitdata.go:359-395 | refused for a ref that does not resolve, then for an unknown commit, then, unless forced, for one that is neither the head nor descends from it; else 200, the ref alone moves there; logged as answered |
| GitStore.WhatUpdateRefDoes | e2e/fakegithub/gitdata.go:359-395 | the same of the step that the runs are made of |
| GitStore.PushedCommitsAreAccepted | e2e/fakegithub/gitdata.go:397-428 | in every run a commit once pushed can be named: a ref that resolves nowhere is created at it with 201, one that does moves to it with 200 exactly when forced or going forward, else 422 |
| GitStore.NeverNamedIsRefused | e2e/fakegithub/gitdata.go:397-428 | in every run a commit that no push, ref, ancestry or SetBranch ever named is refused with 422, for every ref and even if forced |
| GitStore.Server.SetRef | e2e/fakegithub/gitdata.go:138-145 | one ref of one repository moves |
| GitStore.Server.Owners | e2e/fakegithub/gitdata.go:147-156 | the count is exact and, when it is one, the target is the owner's, in whatever order repositories are visited |
| GitStore.Server.AnyRef | e2e/fakegithub/gitdata.go:158-171 | the answer does not depend on that order |
| GitStore.Server.SetParents | e2e/fakegithub/compare.go:22-29 | the named commits get the named parents, nothing else changes |
| GitStore.Server.SetBranch | e2e/fakegithub/compare.go:31-38 | the shared ref moves, no repository's own does |
| GitStore.ResolvesToTheLastWrite | e2e/fakegithub/compare.go:96-104 | in every run a name resolves to the last accepted write of that branch in that repository, without one to what SetBranch last said, without that to itself |
| GitStore.Server.Steps | e2e/fakegithub/compare.go:83-94 | on every history on which the walk does not loop it returns the exact hop distance, 0 for no ancestor |
| GitStore.Server.SetComparePatch | e2e/fakegithub/compare.go:16-20 | the patch is kept under the two revisions joined by dots |
| GitStore.Server.Compare | e2e/fakegithub/compare.go:47-81 | a spec without dots is not found and not counted; asked for a patch, the one supplied for the spec or none; else "behind" exactly when head is base's ancestor, "ahead" the other way round, each with its distance |
| GitStore.SuppliedPatchIsFound | e2e/fakegithub/compare.go:16-20 | a patch supplied for base and head is what the spec base...head finds, wherever dots inside the names make it be cut |
| GitStore.DistanceDescends | e2e/fakegithub/compare.go:83-94 | a positive distance implies that the ancestry search finds the commit |
| GitStore.RunIsNumbered | e2e/fakegithub/gitdata.go:173-176 | in every reachable store the pushed blobs, trees and commits carry numbers already spent |
| GitStore.RefsAreReplayed | e2e/fakegithub/gitdata.go:52-61 | in every reachable store the own refs are what the accepted log entries, in order, leave |
| GitStore.WritesAreIsolated | e2e/fakegithub/gitdata.go:27-33 | a ref request changes one ref of one repository at most, none if refused, and no other repository resolves anything differently |
| GitStore.BranchesOnlyFastForward | e2e/fakegithub/gitdata.go:359-363 | over runs with no forced update and no re-parenting, every earlier head of a branch equals a later one or is in its history |
| GitStore.EveryHeadIsKept | e2e/fakegithub/gitdata.go:359-363 | so every head a branch ever had is its current head or an ancestor of it |
| CommitDistance.HaltsUnlessItLoops | e2e/fakegithub/compare.go:85-94 | the walk ends exactly when it does not come round to a commit it was at before, meeting neither the end nor the commit it looks for; if it loops it has come round within one hop more than there are recorded parents |
| CommitDistance.AcyclicHalts | e2e/fakegithub/compare.go:85-94 | without cycles the walk ends from every commit |
| CommitDistance.DistancesAdd | e2e/fakegithub/compare.go:83-94 | on an acyclic history distances add along a chain |
| CommitDistance.OneDirection | e2e/fakegithub/compare.go:83-94 | on an acyclic history a distance is positive in at most one direction |
| CommitDistance.CompareMirrors | e2e/fakegithub/compare.go:70-79 | swapping base and head swaps ahead and behind, exactly unless each commit is behind the other |
| CommitDistance.AcyclicCompareMirrors | e2e/fakegithub/compare.go:70-79 | on an acyclic history it always does |
| CommitDistance.CycleIsBehindBothWays | e2e/fakegithub/compare.go:70-79 | on a two-commit cycle both answers are "behind" |
| CommitDistance.SelfParentNeverHalts | e2e/fakegithub/compare.go:85-94 | the shortest loop: from a commit that is its own parent the walk ends exactly when it looks for that commit |
| IssueTimeline.Server.Touch | e2e/fakegithub/fakegithub.go:324-330 | updated_at moves to the whole second read, never back |
| IssueTimeline.Server.RecordEvent | e2e/fakegithub/events.go:35-49 | the next id, appended to that issue's timeline alone |
| IssueTimeline.Server.Label | e2e/fakegithub/fakegithub.go:828-838 | a label not carried is appended, updated_at moves and exactly one labeled event with that name, actor and time is recorded; one already carried changes nothing on any issue |
| IssueTimeline.Server.Unlabel | e2e/fakegithub/fakegithub.go:840-851 | a carried label is gone, updated_at moves and exactly one unlabeled event is recorded; one not carried changes nothing; the answer says which |
| IssueTimeline.WithoutRemoves | e2e/fakegithub/fakegithub.go:840-845 | what is left is every other label, in the same order |
| IssueTimeline.Server.SetState | e2e/fakegithub/fakegithub.go:683-699 | a real change of state is recorded as closed or reopened and keeps the labels |
| IssueTimeline.Server.SetIssueState | e2e/fakegithub/fakegithub.go:313-322 | a different state is set with no reason and no event, and moves updated_at |
| IssueTimeline.Server.SetBody | e2e/fakegithub/fakegithub.go:669-672 | a different body is set and moves updated_at; the same one changes nothing |
| IssueTimeline.Server.AddAssignees | e2e/fakegithub/fakegithub.go:890-895 | the logins are appended in order, and move updated_at if there are any |
| IssueTimeline.Server.AddComment | e2e/fakegithub/fakegithub.go:743-773 | the comment is kept with the next id under its number, anchored to the issue's or the pull request's page; only an issue counts it and moves updated_at |
| IssueTimeline.Server.OpenPull | e2e/fakegithub/pulls.go:246-251 | a pull request takes the issues' next number, and its page is known |
| IssueTimeline.CommentsAreCounted | e2e/fakegithub/fakegithub.go:743-773 | in every run the comments kept under a number have increasing ids, and an issue counts exactly those made since it was opened |
| IssueTimeline.Server.NewIssue | e2e/fakegithub/fakegithub.go:615-627 | a new number with the title, body, author and URLs given |
| IssueTimeline.Server.OpenIssue | e2e/fakegithub/fakegithub.go:612-631 | the new issue carries the initial labels, each once in order of first use, and its timeline gains one labeled event by the opener for each, with the ids that follow; no other timeline changes |
| IssueTimeline.OpenedWithFirstUses | e2e/fakegithub/fakegithub.go:612-631 | the same of the steps that runs are made of |
| IssueTimeline.OpeningIsARun | e2e/fakegithub/fakegithub.go:615-631 | opening with labels equals a run of single steps, so the theorems on runs cover it |
| IssueTimeline.TimelineRebuildsLabels | e2e/fakegithub/events.go:35-49 | for every issue of every run, replaying the timeline gives its labels in order, labels never repeat, each name's events alternate starting with labeled, and ids strictly increase |
| IssueTimeline.StepKeepsConsistent | e2e/fakegithub/fakegithub.go:828-851 | every single change keeps that, for all issues at once |
| IssueTimeline.UpdatedIsMonotone | e2e/fakegithub/fakegithub.go:324-330 | whatever the clock reads, over every run of the changes above an issue's updated_at never goes back and its timeline only grows |
| IssueListing.OrderIsStrictAndTotal | e2e/fakegithub/fakegithub.go:569-589 | the comparison is a strict total order on different issue numbers for every sort and direction |
| IssueListing.ListingRunsByKeyThenNumber | e2e/fakegithub/fakegithub.go:541-548 | a listing runs by created time, updated time or comment count as asked, ties by number, all upwards for "asc" and all downwards otherwise |
| IssueListing.ListingIsUnique | e2e/fakegithub/fakegithub.go:541-567 | a set of issues has one sorted listing, so map order cannot show |
| IssueListing.DescendingIsReversed | e2e/fakegithub/fakegithub.go:579-588 | the descending listing is the ascending one reversed |
| IssueListing.ListIssues | e2e/fakegithub/fakegithub.go:549-567 | exactly the issues in the state asked for, open by default, that carry every label of the comma-separated list, each once, in order |
| CodeFlow.Server.AddUser | e2e/fakeoidc/codeflow.go:64-69 | the Register action: the user is registered under the login, the codes stay |
| CodeFlow.Server.SignInUser | e2e/fakeoidc/codeflow.go:77-90 | the first region of an authorize request is the SignIn action; a user is found only for a well-formed S256 request that names a known one |
| CodeFlow.Server.StoreCode | e2e/fakeoidc/codeflow.go:104-115 | the second region is the Store action: the code holds what the query asked for and the user found by the first |
| CodeFlow.Server.HandleAuthorize | e2e/fakeoidc/codeflow.go:77-126 | with nothing between its regions an authorize request is these two actions, and changes nothing if it is refused |
| CodeFlow.Server.Take | e2e/fakeoidc/codeflow.go:141-144 | the locked region of a token request is the TakeCode action: lookup and deletion are one step |
| CodeFlow.Server.Answered | e2e/fakeoidc/codeflow.go:145-165 | the checks and the token are the Reply action, and touch neither table |
| CodeFlow.Server.HandleToken | e2e/fakeoidc/codeflow.go:128-165 | with nothing between them a token request is these two actions; the code leaves the table whatever the answer, except for an unsupported grant |
| CodeFlow.RunKeeps | e2e/fakeoidc/codeflow.go:104-115 | over every interleaving a code is in the table, or held by one attempt, or minted once, never two of these, and what is held is what its authorize request recorded |
| CodeFlow.OneTokenPerCode | e2e/fakeoidc/codeflow.go:141-165 | over every interleaving a code yields at most one ID token, and only to the client, redirect URI and S256 verifier of the authorize request it was stored for, within a minute; the token names the user, audience, nonce and federated id of that request (sections 4.1.2 and 4.1.3 of RFC 6749, section 4.6 of RFC 7636) |
| CodeFlow.AnyAttemptSpends | e2e/fakeoidc/codeflow.go:141-156 | after any attempt on an issued code, failed ones included, no later attempt ever gets a token for it |
| CodeFlow.RightRequestIsAnswered | e2e/fakeoidc/codeflow.go:141-165 | the first attempt on a stored code gets its token exactly when client, redirect URI, verifier and time are right, whatever runs between its two regions |
| CodeFlow.AuthorizedCodeIsStored | e2e/fakeoidc/codeflow.go:77-115 | a well-formed query that names a known user leaves a code that stands for that query, that user and the time it was stored, whatever runs between its two regions |
| CodeFlow.AuthorizedRequestIsAnswered | e2e/fakeoidc/codeflow.go:77-165 | the whole flow in terms of the authorize query: whatever runs in between, the first token request for the code is answered with a token exactly when it has the query's client and redirect URI and the verifier of its challenge, within a minute; the token is for that user, client and nonce |
| RunNames.NamesAsDocumented | api/v1alpha1/intentrun_types.go:12-41 | the documented forms of the names, and no name exactly for an unknown stage |
| RunNames.RunNameRoundTrip | api/v1alpha1/intentrun_types.go:12-41 | for a fixed Intent a parser inverts the run name both ways, for every round, attempt and key, "-a1" inside a key included |
| RunNames.RunNamesAreDistinct | api/v1alpha1/intentrun_types.go:20-21 | within one Intent two runs share a name exactly when they are the same run |
| RunNames.IntentNamesAreDistinct | api/v1alpha1/intent_types.go:15-20 | two Intents share a name exactly when project and issue agree |
| RunNames.NamesFitTheBudget | api/v1alpha1/project_types.go:10-39 | every name is at most 63 characters, and 63 exactly for a build run with every part at full width; an Intent name is at most 33 |
| RunNames.NamesAreValid | api/v1alpha1/intentrun_types.go:96-101 | the names of Intents and runs the schemas admit are valid label values and object names, and the Repositories of a run have valid object names |
| RunNames.TreeNamesAreDistinct | api/v1alpha1/intentrun_types.go:96-104 | within one Intent a tree's Repository is no run's own and no other tree's |
| RunNames.TreeNameOfAnotherIntent | api/v1alpha1/intentrun_types.go:96-104 | two Intents, runs and a key the schemas admit whose tree name and own Repository name coincide |
| RunNames.WhichKeysCollide | api/v1alpha1/intentrun_types.go:96-104 | with every project, issue, round, attempt and key the schemas admit, a key can meet a run's own Repository name of another Intent exactly when it reads as the end of one: "a<attempt>-src" with an attempt in bounds, or an own name from its issue on |
| RunNames.ReadingDecides | api/v1alpha1/intentrun_types.go:34-41 | reading the key with the run-name parser decides that condition |
| Changesets.BuildChangeset | internal/agentrun/changeset.go:31-60 | the loop over the split fields uses every pair in order and stops at the first error |
| Changesets.DecodeEncode | internal/agentrun/changeset.go:31-38 | splitting and stepping by two inverts the NUL-separated form, the empty diff included |
| Changesets.GatherUsesEveryEntry | internal/agentrun/changeset.go:37-55 | each entry is used once in order, upserts carry the branch's mode and bytes, and their sizes sum up within the cap |
| Changesets.ChangesetReproducesBranch | internal/agentrun/changeset.go:19-22 | deletes then upserts applied to the base tree give exactly the branch tree, and no path is in both |
| Changesets.WhenThereIsAChangeset | internal/agentrun/changeset.go:47-58 | for any cap, a changeset comes back exactly when the trees differ, every changed file of the branch is a plain, executable or symbolic link file, and the changed bytes, if a file of the branch changed, are within the cap |
| Changesets.WhichError | internal/agentrun/changeset.go:37-83 | for any entries the answer is the first one's error, by its status, its presence on the branch, its mode or the bytes so far, in that order; without any, an error only when there is no entry |

## Left out

- `GitStore.Server.Compare`: asks its caller for ancestries on which the walks it makes do not loop, because the loop of `steps` does not return exactly on the others.
- `GitStore.Server.Steps`: the same condition, that the walk does not loop.
- `CodeFlow.Server.HandleAuthorize`: the page listing the users and the redirect are left out; a redirect URI that fails to parse is answered with an error after the code is stored, so the stored code is the whole effect.
- `CodeFlow.OneTokenPerCode`: random codes are taken never to repeat, and JWT signing and the failure of it are left out.
- `Changesets.BuildChangeset`: git commands are functions of the two trees and do not fail; base64 and the commit message text are carried as they are.
- `PreviewComponents.ComparesLikeTheSchema`: URLs are of any length, without the schema's limit of 256 characters; of unicode.ToLower it is used that it agrees with LowerChar on ASCII, is settled after one application, and neither changes nor makes a space or a URL's punctuation.
- `PreviewComponents.DesiredPreviewComponents`: compares URLs with only the ASCII letters lowered; what is proved of a derived list does not depend on it.
- `PreviewComponents.PreviewsWhenTheSchemaAllows`: the schema's rules are those on a Project's repositories and previews; its rules on labels, approvers, limits, checks and resource classes are left out.
- `IssueListing.SortFunc`: stands for the library's sort by its promise, a sorted rearrangement, not its algorithm.
- `IssueTimeline.Server.AddComment`: the editing of comments is left out, and so is `Age`, which only rewinds created_at.
- Times are whole numbers and counters do not overflow; sub-second truncation of Kubernetes timestamps is left out.
- HTTP decoding, headers, ETags, permissions and status text are left out; a request is its effect and its accepted or refused outcome.
- Controllers, command parsing, usage rollups, preview slots and generated deep copies are left out.
- Label definitions, check runs, reviews, pull requests and code-scanning alerts of the fake GitHub are left out: their members would be easy.
