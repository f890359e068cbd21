# Verified models of the nix log pipeline and of workspace publishing

This project models, in Dafny, the parts of the repository whose correctness spans several functions or
a whole run, and proves what they promise:

- **The nix log pipeline** (`modules/pg-nix-log-wrapped`): the activity state machine that holds builds
  because a failure may be reported late, its byte-level fast path, the tailer that splits a growing file
  into lines, the capped retained log that is written live or filtered afterwards, and the retention sweep.
- **Workspace ordering and publishing** (`modules/pn/internal/workspace`): flake inputs to edges, the
  foundation-first rule, the two sorting algorithms, the lock file's invariants, and the walk that relocks
  and pushes one repository after the other.
- **The plan tap** that passes a build's output on and may add one warning line, and **the worker pool**
  as a protocol over its atomic steps.
- Three printers and readers: shell quoting against the shell's own reading rules, override flags against
  the installer that reads them back, and the location of a workspace root.

Run `dafny verify dfyconfig.toml` to check everything.

## How it is laid out

| files | what they hold |
|---|---|
| `Basics`, `Names`, `Digraph` | shared values; ordered names, sorted and distinct lists; relations, walks and cycles |
| `Dag`, `Edges`, `LockFile`, `Graph` | dependency orders, edges and the foundation rule, the lock, the display graph |
| `Push` | one repository's relock, the ordered walk, convergence; the class `Workspace` |
| `NixLog`, `NixLogLaws`, `LateErrors`, `ErrorOrder`, `Processor` | the activity machine on values, its laws, and the object that runs it |
| `RunReport` | everything a run reports, read off its events |
| `ResultLine`, `LogRun` | the byte scanners against a full decode, and whole logs read line by line |
| `Retain`, `RetainedLines`, `Tailer`, `LogDir` | the retained file live and offline, which lines are in it, line splitting over polls, the sweep |
| `Plan`, `WorkerPool` | the plan parser and tap, the pool's protocol |
| `Shell`, `Overrides`, `Workforest` | quoting, override flags, workspace locations |

Code that updates its state in place is a class or a method with loops; each such method is proved equal
to a function on values, and the laws are proved about that function. What lies outside the program is a
parameter: the classification of messages and plan lines, URL canonicalisation, process liveness, the
order in which a map is iterated, which commands or file operations fail, and how many bytes a read or
write manages.

## Where the code and its comments differ

- The comment on `propagateWorkspaceEdges` says that no error leaves a dirty tree behind
  (`modules/pn/internal/workspace/propagate.go:121-123`). A repository that cannot be opened, a failing
  `git add` and an unreadable lock after the update leave the rewritten lock there; a failing update,
  restore or reset leaves whatever it leaves. `Push.RelockLeavesTreeClean` gives the exact branches and
  `Push.FailedAddLeavesDirtyTree` an input.
- A set made for a branch below a relative workforests directory is located at its canonical root exactly
  when the cleaned directory is neither `.` nor begins with `..`, the root is not that of the file system, and
  the branch completes no second copy of the directory behind the first (`Workforest.SetIsLocated`). It fails for the directory
  `../sets` of `/w/c`, whose set `/w/sets/b` is not recognised at all (`Workforest.SetOutsideItsRoot`), for
  the root `/wf/b`, where the empty path comes out (`Workforest.SetBelowTheFileSystemRoot`), and for
  `/c/a/a/a/x` with the directory `a/a`, where `/c/a` comes out although the branch `a/x` does not contain
  the directory (`Workforest.OverlappingCopy`).
- The empty path also stands for "undefined" below an absolute workforests directory; which of the two
  cases it is cannot be told from the result (`Workforest.CanonicalRoot`). An absolute directory of `/`
  contains no set at all (`Workforest.LocateAbsolute`, `Workforest.NothingBelowTheFileSystemRoot`).
- The comment on the plan tap says that the warning line is the only addition to the child's bytes
  (`modules/pn/internal/workspace/plan.go:197-200`). That fails exactly when a warning is still due at the
  end and the child's text ends in mid-line: the tap then ends that line first. `Plan.PlanTap.Finish`
  states both directions, `Plan.WarnsInMidLine` an input.

## Model

| member | source | states |
|---|---|---|
| `Dag.TopoSortByDeps` | modules/pn/internal/workspace/dag.go:51-103 | Whatever order the dependency map is iterated in, the in-degree bookkeeping returns the independently defined order: repeatedly the least node whose dependencies are all out, then what a cycle left over, alphabetically. |
| `Dag.CountDependencies` | modules/pn/internal/workspace/dag.go:52-62 | In-degrees count each node's dependencies and the reverse map lists each dependent as often as it depends, for every iteration order. |
| `Dag.InitialReady` | modules/pn/internal/workspace/dag.go:64-70 | The first ready list is the sorted list of nodes without dependencies. |
| `Dag.Release` | modules/pn/internal/workspace/dag.go:77-85 | Every dependent loses one pending dependency per occurrence, and exactly those that reach zero join the ready list, which stays sorted. |
| `Dag.AppendLeftover` | modules/pn/internal/workspace/dag.go:88-102 | The keys not emitted follow in alphabetical order, and nothing is appended when all were. |
| `Dag.TopoOrderIsPermutation` | modules/pn/internal/workspace/dag.go:48-50 | Every key appears exactly once, whatever the dependencies are. |
| `Dag.EmittedIffNoCycleReached` | modules/pn/internal/workspace/dag.go:73-86 | The loop emits a node if and only if no walk along dependencies from it reaches a cycle. |
| `Dag.KahnIsLexicographicallyLeast` | modules/pn/internal/workspace/dag.go:48-86 | Among all orders of the emitted nodes that respect the dependencies, the one returned is alphabetically first. |
| `Dag.AcyclicOrderRespectsDeps` | modules/pn/internal/workspace/dag.go:48-103 | Without cycles nothing is left over and every dependency precedes its dependent. |
| `Edges.BuildEdges` | modules/pn/internal/workspace/edges.go:163-236 | Succeeds if and only if no two repositories claim one canonical URL; then the edges are exactly the flake inputs that name another repository, strictly sorted by consumer and alias, in the order of the foundation rule; otherwise it names two repositories that both claim the URL. |
| `Edges.IndexUrls` | modules/pn/internal/workspace/edges.go:171-193 | The index maps each canonical URL to the one repository that claims it, or reports two that do. |
| `Edges.CollectEdges` | modules/pn/internal/workspace/edges.go:195-229 | Exactly the edges of the declared inputs, strictly sorted by consumer and alias without a sort at the end. |
| `Edges.EdgesToDependsOn` | modules/pn/internal/workspace/edges.go:240-262 | Each consumer with edges is mapped to the sorted list of its distinct targets, the others are absent. |
| `Edges.OrderDeps` | modules/pn/internal/workspace/edges.go:272-314 | Rewriting in place gives the foundation relation: a foundation repository keeps its foundation targets, every other one waits in addition for all foundation repositories, and empty entries are gone. |
| `Edges.OrderedRepoNames` | modules/pn/internal/workspace/helpers.go:12-19 | The keys of the map in alphabetical order, however the map is iterated. |
| `Edges.OrderingAcyclicIff` | modules/pn/internal/workspace/edges.go:264-314 | The ordering relation has a cycle if and only if the edges other than foundation to non-foundation have one; an acyclic edge relation is a special case. |
| `Edges.FoundationRule` | modules/pn/internal/workspace/edges.go:264-314 | The order lists every repository once, foundation repositories before all others and every target of such an edge before its consumer, if and only if those edges are acyclic. |
| `Edges.FoundationOrderIsAcyclic` | modules/pn/internal/workspace/edges.go:264-272 | With a cycle among those edges no order at all obeys the rule. |
| `Edges.RespectingOrderIsFoundationOrder` | modules/pn/internal/workspace/edges.go:264-272 | Any order that lists every repository once and respects the ordering relation obeys the foundation rule. |
| `LockFile.ParseLock` | modules/pn/internal/workspace/lock.go:70-108 | Accepts if and only if all of the invariants (a) to (e) hold; otherwise reports the terminal, or the first edge that breaks one with the first one that it breaks. |
| `LockFile.EdgesAsWritten` | modules/pn/internal/workspace/lock.go:171-182 | Writes a permutation of the edges sorted by consumer, alias and target, which is the edges themselves when they are already strictly sorted. |
| `LockFile.BuiltEdgesAreValid` | modules/pn/internal/workspace/lock.go:63-108 | Edges that were built satisfy (a), (b) and (c), so such a lock is valid exactly when its terminal is known and its targets have flake paths. |
| `Graph.BuildGraph` | modules/pn/internal/workspace/graph.go:29-71 | Succeeds if and only if no two repositories share a slug; then there is an edge for exactly the inputs that lead to another repository, each counted once in its in-degree, and unknown consumers are ignored. |
| `Graph.OwnSlugs` | modules/pn/internal/workspace/graph.go:40-48 | Every slug is owned by the one repository that lists it, or two that list one slug are reported. |
| `Graph.LinkAll` | modules/pn/internal/workspace/graph.go:49-69 | The edges and in-degrees do not depend on the order in which consumers and inputs are visited. |
| `Graph.BuiltIsWellformed` | modules/pn/internal/workspace/graph.go:29-71 | A graph that was built has edges between its own nodes only, and none from a node to itself. |
| `Graph.LinksAreEdges` | modules/pn/internal/workspace/graph.go:24-71 | Where slugs are the canonical forms of the URLs and the inputs given are the flake inputs, the graph can be built exactly when the lock can, and links exactly the repositories that an edge of the lock does: those with a flake input among the other's URLs. |
| `Graph.TopoSort` | modules/pn/internal/workspace/graph.go:148-225 | Fails if and only if there is a dependency cycle, and then names exactly the repositories from which a cycle is reached, in alphabetical order; otherwise lists every repository once, sorted by the length of its longest dependency chain and then by name. |
| `Graph.LevelOrderRespectsEdges` | modules/pn/internal/workspace/graph.go:141-147 | In that order every dependency comes before its dependent. |
| `Graph.StuckRemainderIsCyclic` | modules/pn/internal/workspace/graph.go:180-182 | When a round finds no node without pending dependencies, what remains are exactly the nodes from which a cycle is reached. |
| `Graph.FoundationFirst` | modules/pn/internal/workspace/graph.go:203-216 | The foundation repositories in their order, then the others in theirs. |
| `Graph.FoundationFirstIsFoundationOrder` | modules/pn/internal/workspace/graph.go:198-216 | Applied to a successful display sort of the same edges it gives an order that obeys the rule of the lock's order. |
| `Push.Workspace.Push` | modules/pn/internal/workspace/push.go:323-377 | The loop is the ordered walk, relocking only when asked to, outside a set and with a lock that could be derived; an error names the failing repository, where a command failed or which was not ready, and exactly the order's prefix before it; a repository that was not ready is never passed. |
| `Push.Workspace.PushRepo` | modules/pn/internal/workspace/push.go:340-372 | Pushes, sets an upstream, skips or aborts as the branch, the options and the remote decide, and changes nothing but the published tip. It aborts exactly when git push fails, or an upstream is wanted of a repository that is not cloned or whose branch cannot be told; otherwise it publishes exactly when there is somewhere to push to. |
| `Push.Workspace.GitPush` | modules/pn/internal/workspace/push.go:396-407 | Publishes HEAD with its lock, or fails, with or without the remote having taken it. |
| `Push.Workspace.RelockSiblingsBeforePush` | modules/pn/internal/workspace/push.go:192-217 | Does nothing without aliases or clone, aborts when a tracked file differs from HEAD or that cannot be told, and otherwise relocks to the targets' current remote tips. |
| `Push.Workspace.PropagateWorkspaceEdges` | modules/pn/internal/workspace/propagate.go:124-211 | Each branch, failing commands that leave the lock file or the index in any state included, ends in the state given by the relock's definition; true exactly when a rev moved and was committed. |
| `Push.Workspace.RestoreUnchanged` | modules/pn/internal/workspace/propagate.go:169-179 | Without a moved rev the committed lock is put back, or the failing command decides. |
| `Push.Workspace.CommitBump` | modules/pn/internal/workspace/propagate.go:181-210 | Add, commit and, when the commit fails, reset: each failure ends in the state given for it, and only a commit reports a bump. |
| `Push.Workspace.RestoreAfterFailedCommit` | modules/pn/internal/workspace/propagate.go:231-236 | Always an error; a reset restores the committed lock, a failing one leaves what it leaves. |
| `Push.RelockLeavesTreeClean` | modules/pn/internal/workspace/propagate.go:113-123 | A relock started on a tree whose tracked files are clean ends on one except in exactly the branches listed, all of them errors, whatever failing commands leave behind; a clean end without a commit is the state it began with, an untracked lock aside. |
| `Push.FailedAddLeavesDirtyTree` | modules/pn/internal/workspace/propagate.go:185-187 | An input on which the comment's promise fails. |
| `Push.AbortedRunIsAPrefix` | modules/pn/internal/workspace/push.go:317-391 | An aborted run is the successful run of the completed prefix followed by one failing visit; nothing behind it was touched. |
| `Push.VisitStopsIff` | modules/pn/internal/workspace/push.go:340-372 | A visit fails exactly in the branches listed, by the repository, its pins and the commands that fail; one that goes through publishes the head it ends with if there is somewhere to push to, and nothing otherwise. |
| `Push.RelockCommitsIff` | modules/pn/internal/workspace/propagate.go:124-210 | A relock that goes through commits if and only if HEAD has the lock and an alias that nix may pin is locked to another rev than its target's remote has; the commit is the new lock, and no other alias changes. |
| `Push.AbortHasACause` | modules/pn/internal/workspace/push.go:325-377 | A run aborts only at a repository where a command fails, or which had changes where siblings are pinned or no clone where an upstream is wanted; and no later than at the first of the latter two. |
| `Push.QuietRunFinishesIff` | modules/pn/internal/workspace/push.go:325-377 | When no command fails, the whole walk is published if and only if every repository was ready for it at the beginning. |
| `Push.FinishedRunPublishesEach` | modules/pn/internal/workspace/push.go:339-377 | A finished run publishes each repository that has somewhere to push to once, in the order of the walk and at the head it ends with, and nothing else. |
| `Push.WalkPinsEdge` | modules/pn/internal/workspace/push.go:325-377 | After a finished propagating walk, an edge whose target is not visited after its consumer is pinned to what the target's remote has, in the consumer's lock and, when HEAD has one, in the committed lock, on a clean tree. |
| `Push.SecondRunCommitsNothing` | modules/pn/internal/workspace/push.go:325-377 | If the order honours every edge, a second run changes no HEAD, no lock and no remote, whatever fails in it. |
| `Push.PublishedPinsAreOnRemote` | modules/pn/internal/workspace/push.go:219-232 | Every lock that reaches a remote on the way, by a push that reports a failure too, pins for each workspace edge a rev that was on the target's remote by then, in aborted runs as well. |
| `Push.PushConverges` | modules/pn/internal/workspace/push.go:219-377 | One finished run in the lock's order pins every edge but foundation to non-foundation to its target's remote tip, and without such edges a second run commits nothing. A run in which no command fails finishes if and only if every repository was ready for it. |
| `Processor.Processor.Line` | modules/pg-nix-log-wrapped/internal/nixlog/nixlog.go:336-382 | A line does what the machine does: count it, settle it by its bytes where possible, otherwise decode and handle it. |
| `Processor.Processor.Start` | modules/pg-nix-log-wrapped/internal/nixlog/nixlog.go:384-420 | Opens an activity, an aggregate or a copy by type, numbering the starts; the new state of every field is the machine's. |
| `Processor.Processor.Stop` | modules/pg-nix-log-wrapped/internal/nixlog/nixlog.go:422-445 | Closes the activity; a build is held unless its derivation is known to have failed, anything else is emitted, as `RunReport.EmittedOthers` reads it off the events. |
| `Processor.Processor.Message` | modules/pg-nix-log-wrapped/internal/nixlog/nixlog.go:447-472 | Counts contention and plan messages, and hands errors on. |
| `Processor.Processor.ErrorMsg` | modules/pg-nix-log-wrapped/internal/nixlog/nixlog.go:475-507 | Keeps the first error, blames the derivation it names or notes its kind; over a run the summary is that of `RunReport.RunSummary`. |
| `Processor.Processor.FailNamed` | modules/pg-nix-log-wrapped/internal/nixlog/nixlog.go:480-495 | A build that cannot be done fails for the reason given, or the default one, and with the type of that reason; a hash mismatch as such, with or without a placeholder. |
| `Processor.Processor.FailBuild` | modules/pg-nix-log-wrapped/internal/nixlog/nixlog.go:550-576 | Only the first message about a derivation counts; its build is emitted failed if held, left to its stop if running, reported at once if it never started. |
| `Processor.Processor.ResultEvent` | modules/pg-nix-log-wrapped/internal/nixlog/nixlog.go:370-380 | Progress is kept for tracked activities only. |
| `Processor.Processor.KeepProgress` | modules/pg-nix-log-wrapped/internal/nixlog/nixlog.go:630-642 | Progress stays with an aggregate; a copy's bytes go to the substitution that owns it; over a run they are those of `RunReport.RunAgrees`. |
| `Processor.Processor.IsTracked` | modules/pg-nix-log-wrapped/internal/nixlog/nixlog.go:618-627 | Tracked are aggregates, open substitutions and the copies that belong to one. |
| `Processor.Processor.End` | modules/pg-nix-log-wrapped/internal/nixlog/nixlog.go:595-614 | Emits the held builds, then what is still open as aborted in start order, and leaves nothing held or active. |
| `NixLogLaws.Conservation` | modules/pg-nix-log-wrapped/internal/nixlog/nixlog.go:384-445 | At every step the starts of builds, substitutions and waits are the disjoint union of those emitted, held and active if and only if no open id is started again. |
| `NixLogLaws.EveryStartEmittedOnce` | modules/pg-nix-log-wrapped/internal/nixlog/nixlog.go:593-614 | When the starts are accounted for, then after the end of the run each has been emitted exactly once and nothing is held or active. |
| `NixLogLaws.OneVerdictPerDerivation` | modules/pg-nix-log-wrapped/internal/nixlog/nixlog.go:550-614 | A derivation that starts at most once and not after its message gets exactly one build activity if it started or was named, and none otherwise; it is a failure if and only if it was named or never stopped. |
| `RunReport.RunAgrees` | modules/pg-nix-log-wrapped/internal/nixlog/nixlog.go:384-445 | At every point of a run, with no assumption on the events: the open activities, their starts and their bytes, which are the first number of the last progress of the download or of a copy it owns, the owners of copies and the totals are what looking back over the events finds. |
| `RunReport.EmittedOthers` | modules/pg-nix-log-wrapped/internal/nixlog/nixlog.go:422-445 | The downloads and waits emitted so far are one for each stop of an open one, in that order, with the start, path and server of its opening and the end of its stop; a download carries its last bytes, and has no span exactly when the least span is positive and it is shorter. |
| `RunReport.FinishedOthers` | modules/pg-nix-log-wrapped/internal/nixlog/nixlog.go:593-614 | After the end, those that were still open follow in the order of their starts, marked as aborted at the end. |
| `RunReport.RunReportsBuilds` | modules/pg-nix-log-wrapped/internal/nixlog/nixlog.go:550-576 | For each derivation, however often it is built: nothing is reported before a message blames it; the first one releases the first build that stopped before, or a record of its own if none did and none runs; later stops are reported at once, all with the reason, type and placeholder of that first message; the others are kept. |
| `RunReport.FinishedBuilds` | modules/pg-nix-log-wrapped/internal/nixlog/nixlog.go:593-614 | After the end the kept builds follow as successful, in the order of their stops, then those still running as aborted. |
| `RunReport.RunSummary` | modules/pg-nix-log-wrapped/internal/nixlog/nixlog.go:447-507 | The plan counts and contention counts are those of the messages, the first error is the first that says something, the kinds and the first five failed derivations are those of the messages that are no repetition, and the waits are those emitted. |
| `RunReport.FinishedSummary` | modules/pg-nix-log-wrapped/internal/nixlog/nixlog.go:593-614 | Closing the run changes no part of the summary but the waits. |
| `LateErrors.LateErrorsEqualEarlyErrors` | modules/pg-nix-log-wrapped/internal/nixlog/nixlog.go:422-576 | Moving a failure message past any later starts, stops and progress leaves the emitted activities the same as a multiset and the whole summary, failure kinds included, equal. |
| `LateErrors.MessageCommutes` | modules/pg-nix-log-wrapped/internal/nixlog/nixlog.go:475-576 | One step of that: a failure message and a neighbouring event can be exchanged. |
| `ErrorOrder.LateErrorsAmongMessages` | modules/pg-nix-log-wrapped/internal/nixlog/nixlog.go:422-576 | Past messages about other derivations too: moving it past anything that does not name its derivation, start it or reuse an open id leaves the multiset of emitted activities and the whole summary equal, but for the first error and the list of failed derivations. |
| `ErrorOrder.MessagesCommute` | modules/pg-nix-log-wrapped/internal/nixlog/nixlog.go:447-576 | Two messages can be exchanged up to those two and the order of emission unless both name one derivation. |
| `ErrorOrder.FailsCommute` | modules/pg-nix-log-wrapped/internal/nixlog/nixlog.go:550-576 | Failures of two derivations release and emit the same builds in either order. |
| `LogRun.LinesAreEvents` | modules/pg-nix-log-wrapped/internal/nixlog/nixlog.go:336-382 | A whole log read line by line, fast path included, leaves what the machine leaves on the decoded events, the three line counters excepted. |
| `LogRun.LogsObeyTheLaws` | modules/pg-nix-log-wrapped/internal/nixlog/nixlog.go:336-614 | So the conservation and verdict laws hold of logs, not only of decoded events. |
| `LogRun.LogsReport` | modules/pg-nix-log-wrapped/internal/nixlog/nixlog.go:336-614 | And so do the reports of downloads, waits and builds, and the summary. |
| `LogRun.EachLineIsCounted` | modules/pg-nix-log-wrapped/internal/nixlog/nixlog.go:336-366 | Every line is counted, and as malformed exactly when it cannot be decoded, fast path or not. |
| `LogRun.ResultsByType` | modules/pg-nix-log-wrapped/internal/nixlog/nixlog.go:338-366 | A result of type 101 is dropped without a decode; one of any type but 101 and 105 is decoded like any other line. |
| `LogRun.ProgressIsKept` | modules/pg-nix-log-wrapped/internal/nixlog/nixlog.go:630-642 | A progress line leaves its first, second and fourth number with an aggregate and its first with a download, read either way. |
| `ResultLine.SuffixId` | modules/pg-nix-log-wrapped/internal/nixlog/nixlog.go:647-669 | The scanned id is the number written there, at most 19 digits, with no wrap at 64 bits. |
| `ResultLine.FastFields` | modules/pg-nix-log-wrapped/internal/nixlog/nixlog.go:674-702 | One to four plain integers below 2^63, with no wrap, or a refusal. |
| `ResultLine.SuffixIdOfProgress` | modules/pg-nix-log-wrapped/internal/nixlog/nixlog.go:644-669 | On a rendered progress line the id scanner returns the decoded id, and declines exactly beyond 19 digits. |
| `ResultLine.FastFieldsOfProgress` | modules/pg-nix-log-wrapped/internal/nixlog/nixlog.go:671-702 | On a rendered progress line the field scanner returns exactly the fields, and declines exactly when they are not one to four non-negative integers of at most 18 digits. |
| `ResultLine.FastPathRefinesDecode` | modules/pg-nix-log-wrapped/internal/nixlog/nixlog.go:336-382 | The fast path and a full decode leave the same state, the Dropped counter excepted. |
| `Retain.Writer.WriteLine` | modules/pg-nix-log-wrapped/internal/retain/retain.go:52-69 | Appends the line and its newline if they fit below the cap; after the first that does not, or once a write has failed, nothing more. What reaches the disk is always the capped file, or as much of its beginning as the disk takes. |
| `Retain.Writer.Flush` | modules/pg-nix-log-wrapped/internal/retain/retain.go:74-75 | Brings all of it to the disk, and fails exactly when the disk takes less. |
| `Retain.CappedFileIsLongestPrefix` | modules/pg-nix-log-wrapped/internal/retain/retain.go:49-69 | The capped file is the longest prefix of the lines that fits, without holes, and never exceeds the cap. |
| `Retain.ReadOn` | modules/pg-nix-log-wrapped/internal/retain/retain.go:135-167 | One fragment of any size extends the line, finishes it or skips it, and keeps the file equal to the filter of the bytes read. |
| `Retain.Finalize` | modules/pg-nix-log-wrapped/internal/retain/retain.go:115-168 | The file is the capped filter of the raw bytes that can be read, or as much of it as the disk takes, and the result tells whether anything failed; without a failure and within the cap it is all of the kept lines, which `RetainedLines.ResultLineIsKeptIff` describes. |
| `Retain.FailedFilterLeavesAPrefix` | modules/pg-nix-log-wrapped/internal/retain/retain.go:111-168 | Whatever goes wrong, the file is a prefix without holes of the one it should be, and without a reported failure it is that one. |
| `Retain.FitsTheCapIff` | modules/pg-nix-log-wrapped/internal/retain/retain.go:49-69 | All of the kept lines are in the file if and only if together they fit the cap. |
| `RetainedLines.DroppedIff` | modules/pg-nix-log-wrapped/internal/nixlog/nixlog.go:295-312 | A result line with its type last is left out of the retained log if and only if the type is 105 or 106; so build output, type 101, is kept. |
| `RetainedLines.OtherActionsAreKept` | modules/pg-nix-log-wrapped/internal/nixlog/nixlog.go:300-312 | A line that does not begin as a result is kept. |
| `RetainedLines.EachLineOnItsOwn` | modules/pg-nix-log-wrapped/internal/retain/retain.go:135-167 | What is kept of a raw log is what is kept before a line, the line without its carriage return unless it is too long, empty or dropped, and what is kept behind it. |
| `RetainedLines.ResultLineIsKeptIff` | modules/pg-nix-log-wrapped/internal/retain/retain.go:111-168 | When the filter fails nowhere and the kept lines fit the cap, a result line is in the file left behind, in its place, if and only if its type is neither 105 nor 106. |
| `Tailer.Handler.Line` | modules/pg-nix-log-wrapped/internal/retain/retain.go:97-106 | Hands every line on, writes the retained ones, which `RetainedLines.DroppedIff` describes, and counts for the parse cap the bytes it keeps. |
| `Tailer.Handler.Flush` | modules/pg-nix-log-wrapped/internal/retain/retain.go:108-109 | What the handler has written is on the disk, as far as that takes it. |
| `Tailer.Tailer.HandOn` | modules/pg-nix-log-wrapped/internal/tailer/tailer.go:133-144 | A line is handed on and counted, unless the lines before it count the parse cap or more: then parsing stops for good. |
| `Tailer.CountIsKeptSize` | modules/pg-nix-log-wrapped/internal/retain/retain.go:97-106 | What the lines count toward the parse cap is the size of what the retained log keeps of them. |
| `Tailer.DeliveredIff` | modules/pg-nix-log-wrapped/internal/tailer/tailer.go:133-144 | A line is delivered if and only if what the retained log keeps of the lines before it is still smaller than the parse cap. |
| `Tailer.Tailer.DeliverNext` | modules/pg-nix-log-wrapped/internal/tailer/tailer.go:126-146 | Takes the first line off the buffer, its carriage return stripped, and hands it on unless it is empty or refused. |
| `Tailer.Tailer.Consume` | modules/pg-nix-log-wrapped/internal/tailer/tailer.go:117-153 | The loop delivers what one chunk completes, from any state and for lines of any length, and gives up an unfinished line over 16 MiB. |
| `Tailer.Tailer.ReadChunk` | modules/pg-nix-log-wrapped/internal/tailer/tailer.go:95-113 | One read takes what was asked for, or part of it with an error, or nothing. |
| `Tailer.Tailer.Poll` | modules/pg-nix-log-wrapped/internal/tailer/tailer.go:75-115 | For any file, one that has shrunk included: some reads of what follows, in order, then past the parse cap a jump to the end. The result is the distance covered; it stops short only when a read failed, and everything written is flushed. |
| `Tailer.PollFollows` | modules/pg-nix-log-wrapped/internal/tailer/tailer.go:72-115 | While the file only grows and its complete lines have at most 16 MiB, a poll never goes back and afterwards exactly the delivered lines of the bytes read have been seen. |
| `Tailer.ShrunkFileIsReadAnew` | modules/pg-nix-log-wrapped/internal/tailer/tailer.go:75-115 | A poll of a file that has become shorter reads it from its start as if it were new: behind the lines seen before come its own, with what is left of the parse cap. |
| `Tailer.ReadsDoNotShow` | modules/pg-nix-log-wrapped/internal/tailer/tailer.go:75-153 | Then any two ways to cut a log into reads deliver the same lines and stop at the same one. |
| `Tailer.ReadsShowIffTooLong` | modules/pg-nix-log-wrapped/internal/tailer/tailer.go:22-24 | The limit is sharp, for every line: the lines delivered of a one-line log are the same for all ways to read it if and only if the line has at most 16 MiB. |
| `Tailer.Tailer.Follow` | modules/pg-nix-log-wrapped/internal/tailer/tailer.go:72-115 | Over any polls of a growing file the returns sum to the offset gained, and the delivered lines have been seen. |
| `Tailer.Tailer.FinalDrain` | modules/pg-nix-log-wrapped/internal/tailer/tailer.go:163-170 | Ends for any file, and unless a read fails with everything consumed and flushed. |
| `Tailer.Tailer.Run` | modules/pg-nix-log-wrapped/internal/tailer/tailer.go:155-175 | A whole run over a file that only grows leaves, byte for byte, the file that the offline filter makes of the raw file on the same disk, unless a read fails, when lines with their newline have at most 16 MiB and the parse cap is no smaller than the retained cap. |
| `Tailer.LiveEqualsOffline` | modules/pg-nix-log-wrapped/internal/retain/retain.go:111-115 | The same for any state in which every complete line has been consumed. |
| `Tailer.OneLineLiveEqualsOffline` | modules/pg-nix-log-wrapped/internal/retain/retain.go:29-31 | That limit is sharp too: for one line that the live run delivers, keeps and fits, both files are equal if and only if the line with its newline has at most 16 MiB. |
| `Tailer.WithheldLinesDoNotFit` | modules/pg-nix-log-wrapped/internal/tailer/tailer.go:133-141 | The lines the parse cap withholds would not have fitted the retained file. |
| `LogDir.Dir.Finalize` | modules/pg-nix-log-wrapped/internal/logdir/logdir.go:290-297 | Filters, dates and only then removes a raw file; when the filter reports a failure the raw file stays, beside the part of its log that was written. |
| `LogDir.Dir.FinalizeOrphans` | modules/pg-nix-log-wrapped/internal/logdir/logdir.go:208-229 | Finalizes exactly the regular raw files whose process is known and gone or that are too old; each raw file and its log end as `LogDir.NoRawIsLostUnfiltered` says. |
| `LogDir.EachPairOnItsOwn` | modules/pg-nix-log-wrapped/internal/logdir/logdir.go:208-229 | The listing order does not matter: every file ends as if its own raw file were the only one visited. |
| `LogDir.NoRawIsLostUnfiltered` | modules/pg-nix-log-wrapped/internal/logdir/logdir.go:186-193 | A raw file goes if and only if its process is known and gone or it is older than the limit, no directory or link is in its log's place, its filter runs without a failure and it can be removed; then its log holds all that is kept of it, dated like it. Otherwise it is unchanged, and so is its log unless the filter failed. |
| `LogDir.Dir.Tally` | modules/pg-nix-log-wrapped/internal/logdir/logdir.go:238-259 | The total counts every regular raw file and log, and a run is live while its raw file remains. |
| `LogDir.Dir.Survey` | modules/pg-nix-log-wrapped/internal/logdir/logdir.go:235-266 | Evictable are exactly the regular logs without a remaining raw file. |
| `LogDir.OldestFirstOf` | modules/pg-nix-log-wrapped/internal/logdir/logdir.go:267-267 | A permutation in order of modification time. |
| `LogDir.Dir.Evict` | modules/pg-nix-log-wrapped/internal/logdir/logdir.go:267-284 | Evicts the fewest logs, oldest first, with which both limits are met as far as evicting can, and counts those it could remove. |
| `LogDir.FewestWhen` | modules/pg-nix-log-wrapped/internal/logdir/logdir.go:268-283 | Stopping at the first log that is neither too old nor over the cap evicts no more than needed. |
| `LogDir.Dir.SweepWith` | modules/pg-nix-log-wrapped/internal/logdir/logdir.go:203-285 | Orphans are finalized first, then the fewest logs are evicted from what that leaves; each raw file and its log end as `LogDir.WholeSweep` says, and the result is how many files the second step took away. |
| `LogDir.SweepMeetsTheLimits` | modules/pg-nix-log-wrapped/internal/logdir/logdir.go:194-198 | When files can be removed, no log without a raw file of its stem is older than the limit afterwards, and all logs and raw files together are within the cap or no such log is left. |
| `LogDir.EvictionsAreOldestAndNecessary` | modules/pg-nix-log-wrapped/internal/logdir/logdir.go:194-198 | Only logs without a raw file of their stem are evicted, nothing kept is older than anything evicted, and the last eviction was necessary: the log was too old, or all logs and raw files together over the cap. |
| `LogDir.LiveRunsAreKept` | modules/pg-nix-log-wrapped/internal/logdir/logdir.go:196-200 | Neither the raw file nor the log of a live run is evicted. |
| `LogDir.WholeSweep` | modules/pg-nix-log-wrapped/internal/logdir/logdir.go:184-202 | Over both steps: a raw file no older than the limit whose process is alive or unknown is unchanged with its log; one whose run is over and that can be filtered and removed is gone, and its log holds all that is kept of it unless it was evicted in turn; nothing goes unfiltered. |
| `LogDir.NothingElseIsTouched` | modules/pg-nix-log-wrapped/internal/logdir/logdir.go:200-201 | Directories, symbolic links and files of other names are never touched. |
| `Plan.PlanParser.Feed` | modules/pn/internal/workspace/plan.go:84-104 | Feeding a chunk is feeding its bytes one after the other, wherever its boundaries fall. |
| `Plan.PlanParser.ReadLine` | modules/pn/internal/workspace/plan.go:132-159 | What one classified line does to the list in progress and to the statistics; over all lines that is what `Plan.ListsAreSeen`, `Plan.StatsSumHeaders` and `Plan.NamesAreListed` say. |
| `Plan.PlanParser.EndBlock` | modules/pn/internal/workspace/plan.go:124-130 | An open block becomes a closed one, and the list state is idle. |
| `Plan.PlanParser.EndStream` | modules/pn/internal/workspace/plan.go:108-114 | The unterminated line is a line, and the open block ends. |
| `Plan.PlanParser.TakeClosed` | modules/pn/internal/workspace/plan.go:117-122 | Reports a block that ended since the last call, once. |
| `Plan.FeedConcat` | modules/pn/internal/workspace/plan.go:82-104 | Feeding two chunks is feeding their concatenation. |
| `Plan.ParserIsLineByLine` | modules/pn/internal/workspace/plan.go:82-104 | The incremental parser equals a line splitter in front of the line rule, lines over 64 KiB ignored. |
| `Plan.FinalBlock` | modules/pn/internal/workspace/plan.go:106-114 | At the end it knows what the lines of the whole text say. |
| `Plan.StatsSumHeaders` | modules/pn/internal/workspace/plan.go:50-62 | Builds, fetches and download sizes are the sums over all headers, and a size is present exactly when some header had one. |
| `Plan.EachLineIsRead` | modules/pn/internal/workspace/plan.go:84-104 | A line ended by a newline or a carriage return is read in its place, unless it has more than 64 KiB. |
| `Plan.ListsAreSeen` | modules/pn/internal/workspace/plan.go:132-159 | A list is open if and only if nothing but blank lines and store paths follow the last header, it is one of builds if that header is, and a list has ended if and only if other text once followed one. |
| `Plan.NamesAreListed` | modules/pn/internal/workspace/plan.go:60-61 | The names are those of the first ten store paths listed under headers of builds. |
| `Plan.FeedRises` | modules/pn/internal/workspace/plan.go:143-158 | Counts never fall, and a plan over the threshold is in an open block or one whose end has not been noticed. |
| `Plan.PlanTap.Write` | modules/pn/internal/workspace/plan.go:217-228 | The destination keeps what it holds and gets the bytes it takes, and behind them the warning if that falls due, at a line start; the warning line is the only addition. At a line start, with the headers so far over a positive threshold and no list going on, the warning is out; it never goes out before a list has ended, and it reports the statistics of the lines so far. |
| `Plan.PlanTap.Observe` | modules/pn/internal/workspace/plan.go:252-261 | Appends the warning or nothing, and the warning as soon as the stream is at a line start. |
| `Plan.PlanTap.EmitWarning` | modules/pn/internal/workspace/plan.go:263-267 | Appends one line behind all of the child's bytes, reporting the statistics of that moment, which exceed the threshold. |
| `Plan.PlanTap.Finish` | modules/pn/internal/workspace/plan.go:230-243 | Afterwards the warning was given if and only if the threshold is positive and the final builds exceed it. Only a warning still due is appended, behind a newline exactly when the child's text ends in mid-line; the warning line is the only addition unless that happens. The statistics are those of the whole text. |
| `Plan.WarnsBehind` | modules/pn/internal/workspace/plan.go:236-242 | For every unfinished header over the threshold the extra newline is written, and the promise of the comment fails. |
| `Plan.WarnsInMidLine` | modules/pn/internal/workspace/plan.go:197-200 | The same at one stream. |
| `WorkerPool.StartInvariant` | modules/pn/internal/exec/workerpool.go:33-49 | A new pool has the number of workers asked for, at least one, and all of them live. |
| `WorkerPool.EveryRunConserves` | modules/pn/internal/exec/workerpool.go:51-89 | In every state of every run each submitted job is waiting, running, run or dropped, once per submit, and nothing is dropped while the pool is open. |
| `WorkerPool.OnlyExitShrinksThePool` | modules/pn/internal/exec/workerpool.go:63-77 | A panicking job leaves the number of live workers unchanged; only a worker's exit lowers it. |
| `WorkerPool.PanicsAreRecorded` | modules/pn/internal/exec/workerpool.go:63-77 | The values recorded are those of the run's panics, in order. |
| `WorkerPool.HandedJobsRun` | modules/pn/internal/exec/workerpool.go:51-77 | Every job handed to a worker is running or has run, once for each time it was handed over. |
| `WorkerPool.JobsAreRecorded` | modules/pn/internal/exec/workerpool.go:79-89 | The submitted and the dropped jobs are those of the run's submits and drops. |
| `WorkerPool.ClosesAreRecorded` | modules/pn/internal/exec/workerpool.go:91-102 | Every call of Close waits or has returned, and the pool is closed by the first one. |
| `WorkerPool.NoDropBeforeClose` | modules/pn/internal/exec/workerpool.go:79-89 | A job is dropped, or a worker exits, only after some call of Close. |
| `WorkerPool.SubmitWaitsOnlyWhenAllAreBusy` | modules/pn/internal/exec/workerpool.go:79-89 | A job cannot be handed over if and only if every worker that has not exited is running one; while the pool is open those are all of them. |
| `WorkerPool.ClosedForGood` | modules/pn/internal/exec/workerpool.go:91-102 | Once a call of Close has returned no job is running and none ever starts. |
| `WorkerPool.ShutdownProgresses` | modules/pn/internal/exec/workerpool.go:91-102 | After Close some step is possible until everything has settled. |
| `WorkerPool.ShutdownEnds` | modules/pn/internal/exec/workerpool.go:91-102 | If jobs end, whatever the scheduling, a bounded number of steps later every submit and every Close has returned and each job was run or dropped. |
| `Shell.ShellJoin` | modules/pn/internal/workspace/flake_check_nobuild.go:368-379 | The shell reads the printed line back as exactly the arguments. |
| `Shell.ShownAsItIsIff` | modules/pn/internal/workspace/flake_check_nobuild.go:371-376 | An argument is printed as it is if and only if it is not empty and has none of the characters that mean something to a shell. |
| `Shell.LexUndoesShellJoin` | modules/pn/internal/workspace/flake_check_nobuild.go:368-379 | The same on values, for every list: empty strings, quotes and newlines included (sections 2.2.1 to 2.2.3 and 2.3 of POSIX.1-2017 XCU). |
| `Shell.ShellJoinIsInjective` | modules/pn/internal/workspace/flake_check_nobuild.go:368-379 | No two argument lists print alike. |
| `Overrides.ResolveOverrides` | modules/pn/internal/workspace/helpers.go:81-105 | The overrides of exactly the consumer's edges that are not excluded and whose directory exists, sorted by alias. |
| `Overrides.OverridesExactly` | modules/pn/internal/workspace/helpers.go:81-105 | An override is in the result if and only if it is an input of the consumer whose target is not the excluded one, its directory is the one given for the target or else its default place, and that is on disk. |
| `Overrides.ResolutionIsUnique` | modules/pn/internal/workspace/helpers.go:71-105 | With unique aliases the result depends only on the set of edges, neither on their order nor on how the sort breaks ties. |
| `Overrides.OverrideInputArgs` | modules/pn/internal/workspace/helpers.go:110-116 | One flag triple for each override, in order. |
| `Overrides.TripleAt` | modules/pn/internal/workspace/helpers.go:110-116 | The arguments of the i-th override are the flag, its alias and the URL of its directory. |
| `Overrides.OverriddenInputs` | modules/pn/internal/workspace/helpers.go:124-130 | Keys are exactly the targets; a value is the URL of the last override of its target. |
| `Overrides.RecordAgreesWithFlags` | modules/pn/internal/workspace/helpers.go:62-69 | A repository is recorded if and only if one of its edges is overridden, and every flag emitted for it carries the recorded URL. |
| `Overrides.PrivateInstallArgs` | modules/pn/internal/workspace/nix_hooks.go:134-145 | The strided loop reads the flags as its recursive definition does, on any arguments. |
| `Overrides.InstallerReadsTheFlagsBack` | modules/pn/internal/workspace/nix_hooks.go:130-145 | On the rendered triples it yields exactly the alias and directory pairs in order, even when one looks like the flag. |
| `Overrides.OtherArgumentsArePassedOver` | modules/pn/internal/workspace/nix_hooks.go:130-145 | Arguments before and behind the triples change nothing. |
| `Workforest.WorkforestLocation` | modules/pn/internal/workspace/info.go:149-176 | Absolute directory: inside exactly when strictly below it, without a canonical root. Relative one: inside exactly when some strict ancestor ends in its segments, with the prefix of the deepest. |
| `Workforest.LocateRelative` | modules/pn/internal/workspace/info.go:162-175 | Terminates; inside if and only if some strict ancestor ends in the directory's segments, and then the prefix of the deepest such ancestor. |
| `Workforest.LocateAbsolute` | modules/pn/internal/workspace/info.go:153-160 | Inside if and only if strictly below the directory on segment boundaries, the file system root excepted; what the comment says, inside if and only if strictly below, holds exactly when the directory is not the file system root or the root is that itself. |
| `Workforest.NothingBelowTheFileSystemRoot` | modules/pn/internal/workspace/info.go:153-160 | The directory / and the root /x, on which it fails. |
| `Workforest.CanonicalRoot` | modules/pn/internal/workspace/info.go:117-128 | Absolute directory: the empty path strictly below it and the root elsewhere. Relative one: the root if and only if no strict ancestor ends in its segments, which is always so for a directory that is . or begins with ..; otherwise the prefix of the deepest match, which is empty exactly for a match at the top of the file system. |
| `Workforest.SetIsLocated` | modules/pn/internal/workspace/info.go:139-148 | The set made for a branch of any depth is recognised if and only if the cleaned relative directory is neither . nor begins with ..; it is located at that root if and only if, besides, the root is not that of the file system and the branch completes no second copy of the directory. |
| `Workforest.DottedNeverMatches` | modules/pn/internal/workspace/info.go:162-175 | For a directory that is . or begins with .. nothing is ever recognised. |
| `Workforest.SetOutsideItsRoot` | modules/pn/internal/workspace/info.go:149-176 | The canonical root /w/c with the directory ../sets: the set /w/sets/b is not recognised. |
| `Workforest.AbsoluteSetIsRecognised` | modules/pn/internal/workspace/info.go:153-160 | A set below an absolute directory is recognised, without a canonical root, unless the directory is the file system root. |
| `Workforest.SetBelowTheFileSystemRoot` | modules/pn/internal/workspace/info.go:149-176 | At the root /wf/b the canonical root comes out empty, not as /. |
| `Workforest.OneSegmentCopies` | modules/pn/internal/workspace/info.go:139-148 | For a directory of one segment: if and only if the branch does not pass through a directory of that name. |
| `Workforest.OverlappingCopy` | modules/pn/internal/workspace/info.go:144-148 | At the root /c/a/a/a/x, with the directory a/a and a branch that does not contain it, the canonical root comes out as /c/a, not as /c. |

## Left out

- Process execution, signals, exec fail-open, telemetry, the Jira client, cobra commands, doctor checks and hook bundles: operating system or network plumbing, or easy members.
- Regular expressions, ANSI stripping, JSON and TOML: messages, plan lines and decoded values are data; only the two byte scanners of `nixlog.go` work on a rendering.
- URL canonicalisation and slug extraction: any function will do for the theorems about edges and graphs.
- `buildDAG` (`modules/pn/internal/workspace/dag.go:16-46`): collects sorted, distinct names in front of `topoSortByDeps`; nothing outside its tests calls it.
- `selectTerminal`, `FailureKind`, `Summary`'s progress sums, `shortRev`, `bumpCommitMessage`, `truncateRunes`: finite precedence tables, sums or text, easy members.
- Disks that fail otherwise than by taking only so many bytes, and a tailed file that cannot be examined: a poll then does nothing.
- What is delivered of a tailed file that holds lines over 16 MiB, or changes in place without becoming shorter than what was read: the methods are specified for every file, the statements about all the bytes read are for one that grows by lines within the limit, or that becomes shorter and is read anew.
- Lag, tickers and the drain's deadline: the model's last drain ends when nothing more comes.
- Integer width outside the two scanners: plan counts and byte totals are unbounded, so wrap-around of a sum of plan counts at 64 bits is not modelled; the scanners' 64-bit arithmetic is.
- A short or failing write of the plan tap's own warning line or of the newline before it: assumed complete; writes of the child's bytes may be short.
- Mutexes of the plan tap and of the worker pool's list of panics: each critical section is one step.
- Jobs that never return: the shutdown theorem lets every running job take its last step.
- Concurrent runs during a sweep: the directory changes only through the sweep itself.
- Whether the lock's flake paths exist on disk: `LockFile.ParseLock` checks what the lock says, and built edges do not establish it.
- How the push command chooses its order: `Push.Workspace.Push` takes the names as given, and the convergence theorem is about the order of the lock.
- A directory that cannot be listed and entries that cannot be examined: the sweep skips them, the model has none.
- A new lock file that nix makes known to git without committing it: to the model a lock that HEAD does not have is untracked, and only a probe that reports it brings it to a commit.
- How nix and git do their work: a relock moves each pinned alias to its target's remote tip, a push publishes HEAD, and each command may fail. A failing command may leave any lock file and index, and a failing push may have reached the remote; commits that fail after moving HEAD are not modelled.
- Path cleaning: `Workforest` works on cleaned paths.
