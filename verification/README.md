# The release controller, modelled and proved

The repository is a Kubernetes controller that installs, updates, rolls back and uninstalls releases. It
watches Release objects, runs hooks, asks Kubernetes to create, update or delete resources, and archives
every revision as a ReleaseVersion object. This project models its logic in Dafny and proves what holds of
it in every run and under every pattern of failures.

- `GoStrings`, `ReleaseName`, `ReleaseKey`: the strings functions relied on, the name pattern, the key codec.
- `Hapi`, `Worlds`: the API objects; the archive as a plain map from name and version to record; the actions
  that reach the outside; the oracles that answer them.
- `Revisions`, `Archive`: in-place sorting; the string-keyed, label-queried store, proved to be that map.
- `KindSorter`, `Manifests`, `ManifestBlob`: classifying, ordering, aggregating, splitting and filtering.
  `Annotations`: what file names and annotations mean, in the words a chart's author writes.
- `Lifecycle`: what each handler does, as a function. `ReleaseServer`: the handlers as methods that update
  the release and the store in place, each proved equal to its function.
- `HookLaws`, `HandlerLaws`, `Outcomes`, `Rollbacks`: the traces, ends and errors of hooks and handlers.
- `Renderings`, `Requests`, `Uninstalls`: which values and options a chart is rendered with, and what each handler
  asks of Kubernetes, argument by argument, in terms of the files, the release and the archive.
- `History`, `Controller`: the invariant of the archive, and the machine of interleaved small steps.
- `Purging`, `Quiescence`: what the plan of a notice makes of a name's revisions; why the controller's own status
  writes do not set it off again, and that it comes to rest.
- `Futures`, `Reuse`, `Recreation`: what may follow a state; the exact condition under which a name may be used for
  another object; and two runs in which it is used too early.
- `Refinement`, `Conservation`, `Specimen`: the methods are the machine's handlers; what an install or an update
  recorded is what uninstall deletes; a witness that the conditions for that can be met.

Kubernetes, discovery, the status write, template rendering, YAML heads and clocks are oracles: functions of
everything that happened before, over which every theorem quantifies. Every call and every write goes to a
log, so a theorem can say which calls were made, in which order and with which answers.

The store creates exactly on a free key and updates and deletes exactly on a taken one, as the driver
interface (pkg/storage/driver/driver.go:35) promises. Versions are int32 with Go's conversions. Theorems
about runs ask that no handler starts while a revision number is at the int32 maximum: `Outcomes.RevisionLimit`
shows that an update there breaks the archive, `Controller.ShortRunsStayBelow` that it takes 2147483647 steps to get there.

A name may be used for one object after another. What the theorems about such runs ask for is that the name is
drained when an object is created (`Quiescence.Drained`). No removal of its revisions is under way; no queued
removal may still purge, judged by what the pending plan will leave and by the notices in front of it; and no
rollback has a target that claims a revision the archive will not hold. For an object that can be installed, and
unless the version limit is reached, also: no install of the name is under way or waiting, and no rollback that
claims such a revision waits for an older one. A name that was never used, or whose notices have all been taken and
its rollbacks finished, is drained. `Reuse.WhatMakesReuseHarmful` proves this condition to be exact, in the middle
of a handler or of a rollback too, and `Reuse.DrainedRunsAreTheHarmless` that the runs of these theorems are exactly
the runs whose creations are all harmless.

The model lets a status write succeed whatever object it was made for. Two causes of harm need that of the API
server, which may refuse a write that carries the metadata of a deleted object: `Reuse.QueuedInstallIsHarmful` and
`Reuse.InstallUnderWayIsHarmful`. So does the run `Recreation.ReturnAtOnceClaimsTooMuch`. The other causes and
`Recreation.LateRollbackClaimsTooMuch` do not: there a rollback fetches the object it writes.

## Where the code and its comments differ

The model follows the code.

- FirstDeployed is not archived (pkg/storage/driver/release_version.go:228-242): it is zero after any update,
  and a rollback right after an install is taken for a change of status and ignored.
- A file whose hook annotation names no known event is dropped, though files that declare no hook type are said
  to be generic (pkg/tiller/hooks.go:89-90, 163-166).
- A resource policy other than keep means neither kept nor deleted (pkg/tiller/resource_policy.go:49-52).
- Uninstalling with purge returns before any resource is deleted (pkg/tiller/release_server.go:823-829).
- The error of a failed Kubernetes update and of a failed post-install hook is overwritten by that of the status
  write (pkg/tiller/release_server.go:253, 722). The former is still always reported, the latter is not.
- Update is said to create a missing object (pkg/storage/driver/release_version.go:161-162) and does not.
- Pre-install hooks run in a namespace named like the release (pkg/tiller/release_server.go:659).
- Recreate in a rollback request has no effect (pkg/tiller/release_server.go:384, 411).
- A negative rollback version is possible only through the conversion to int32 (pkg/tiller/release_server.go:437-443).

## Model

| member | source | states |
|---|---|---|
| Controller.EveryReachableArchive | pkg/tiller/release_server.go:217-274 | In every state of every run, also between any two writes of a handler, under any interleaving with rollback steps and user edits and any failures, the revisions of a name are exactly 1..n and all but the newest are SUPERSEDED; only while a purge of that very name is under way may they begin later |
| Controller.RunKeepsHistory | pkg/tiller/release_server.go:131-214 | The same from any safe state: every run whose handlers start below the version limit keeps the pending plan safe, the archive of every name being settled after each single action still to come unless a removal of the name is still pending |
| Controller.StepKeepsHistory | cmd/tillerc/main.go:44-45 | One step of either goroutine or of a user, at any moment, keeps the plan safe |
| Controller.ShortRunsStayBelow | pkg/tiller/release_server.go:306-306 | No run of at most 2147483647 steps reaches the version limit |
| Controller.HandlersAreSafe | pkg/tiller/release_server.go:144-180 | Whatever handler a notice is dispatched to, with whatever oracle answers, its actions one by one keep the archive sound and leave it settled |
| Controller.UnreadIsUndone | pkg/tiller/release_server.go:287-299 | A handler that stops before reading history or rendering does nothing at all |
| Controller.RollbackWritesNoRevision | pkg/tiller/release_server.go:343-420 | No step of the machine's rollback goroutine changes the archive or the pending plan; the two rows below tie these steps to the source's function |
| Rollbacks.RollbackOnlyRewrites | pkg/tiller/release_server.go:343-420 | For every request and every answer, a rollback leaves the archive alone; refused, it asks for nothing; otherwise it fetches the object and, if there is one, writes it back once with the target's spec and status; the error says how far it came |
| Refinement.WriteRefinesRollback | pkg/tiller/release_server.go:411-420 | The machine's rollback write is the source's function fetching the live object: same archive, and the object and its notice change exactly when the write succeeds |
| History.AtMostOneDeployed | pkg/tiller/release_server.go:265-267 | In a sound archive at most one revision of a name is DEPLOYED, and it is the newest |
| History.UpdateIsSafe | pkg/tiller/release_server.go:217-274 | Each action of an update, under every failure pattern, leaves every name's revisions consecutive with all but the newest superseded |
| History.InstallIsSafe | pkg/tiller/release_server.go:488-745 | The same for an install, also when revision 1 exists already |
| History.UninstallIsSafe | pkg/tiller/release_server.go:804-896 | The same for an uninstall, with and without purge |
| History.PurgeRemovesAll | pkg/tiller/release_server.go:794-801 | A purge of a whole history succeeds, removes its revisions oldest first, and leaves none of the name |
| History.HistoryEnds | pkg/storage/storage.go:152-164 | A history of revisions lo..n starts at lo and its last element, which Last hands out, is n |
| History.NewestOf | pkg/storage/storage.go:152-164 | The newest revision of a history carries its own key, matches its record, has a zero FirstDeployed and is maximal |
| Worlds.HistoryIsUnique | pkg/tiller/release_server.go:819-820 | A history is determined by the store, so Last and the last element that uninstall picks are the same revision |
| Outcomes.RevisionLimit | pkg/tiller/release_server.go:306-334 | A successful update of the revisions 1..n leaves a range 1..m if and only if n is below the int32 maximum, and then 1..n+1; at the maximum the version it records wraps to the minimum |
| Refinement.HandlerRefinesMethod | pkg/tiller/release_server.go:144-180 | What a server method reads enables the Take of its notice, and performing the plan action by action ends in the archive and log the method ends in |
| Refinement.HandlerFollows | pkg/tiller/release_server.go:217-274 | The archive every handler leaves is the old one with exactly its logged actions performed |
| Refinement.ReadsRefineRollback | pkg/tiller/release_server.go:431-473 | The two separate reads of the rollback goroutine, undisturbed, accept the same requests and prepare the same target as prepareRollback |
| Quiescence.RunKeepsCalm | pkg/tiller/release_server.go:164-180 | Every run that creates objects only under drained names keeps the invariant: no object's status claims a revision beyond what the archive holds or is about to hold, whatever snapshots are still queued |
| Quiescence.StepKeepsCalm | pkg/tiller/release_server.go:164-180 | One step of a goroutine or user keeps that invariant; a creation asks for a drained name, everything else for nothing |
| Purging.PlanSpares | pkg/tiller/release_server.go:804-896 | A handler writes the archive under its own release's name only. It removes something only for a reported removal of a valid name whose newest revision asks for a purge, and then the whole history, oldest first. The newest revision comes to ask for a purge only by an update, or an install adding the first revision, that asks for it |
| Purging.TakingKeepsMild | pkg/tiller/release_server.go:144-180 | If neither the archive nor the first notices of the queue can make a name's newest revision ask for a purge, then after taking the first of them the rest still cannot, the version limit apart |
| Quiescence.EchoIsIgnored | pkg/tiller/release_server.go:174-179 | A status write of a handler is a first deployment or strictly raises LastDeployedVersion; its echo is therefore classed as a change of status, never as an update |
| Quiescence.UpdatesAreBounded | pkg/tiller/release_server.go:174-179 | In every such run UpdateRelease is called at most once per user edit and per rollback write |
| Quiescence.ClaimsAreArchived | pkg/tiller/release_server.go:334-334 | In every such run, between handlers, no object's LastDeployedVersion exceeds the newest stored revision of its name |
| Quiescence.ControllerSettles | pkg/tiller/release_server.go:174-180 | Each notice taken lowers a measure that the controller's own writes never raise |
| Quiescence.LeftAloneItRests | pkg/tiller/release_server.go:164-180 | From any calm state, the controller alone takes no more notices than that measure allows |
| Quiescence.EveryRunComesToRest | pkg/tiller/release_server.go:164-180 | After any such run, the notices the controller can still take on its own are bounded |
| Reuse.DrainedIsHarmless | pkg/tiller/release_server.go:144-180 | Creating an object under a drained name leads to no harm, whatever follows: no claim of a revision that is not stored, and no status write taken for an update |
| Reuse.WhatMakesReuseHarmful | pkg/tiller/release_server.go:144-180 | After any run that creates objects only under drained names, also in the middle of a handler or a rollback: creating an object can lead to harm if and only if its name is not drained |
| Reuse.DrainedRunsAreTheHarmless | pkg/tiller/release_server.go:144-180 | A run creates objects only under drained names if and only if none of its creations can lead to harm |
| Reuse.ReachedStates | pkg/tiller/release_server.go:131-181 | After every such run the invariant holds and the archive of every name is in shape |
| Reuse.PurgeToComeIsHarmful | pkg/tiller/release_server.go:823-829 | A queued removal of a valid name makes every creation of the name harmful, wherever it stands in the queue, if its newest revision will ask for a purge, or an update or first install in front of it can make it ask for one |
| Reuse.UnheldTargetIsHarmful | pkg/tiller/release_server.go:411-420 | So does a rollback that has its target and would claim a revision that will not be stored |
| Reuse.UnheldNewestIsHarmful | pkg/tiller/release_server.go:442-457 | A rollback that has read a newest revision that will not be stored, and waits for an older one, makes the creation of an object that can be installed harmful: the new object can grow revisions up to the one waited for |
| Reuse.PurgeUnderWayIsHarmful | pkg/tiller/release_server.go:794-801 | A purge under way makes every creation of the name harmful: a rollback can still claim a revision it is about to remove |
| Reuse.QueuedInstallIsHarmful | pkg/tiller/release_server.go:144-156 | A queued creation of an earlier object that can be installed makes that of a second such object harmful: both installs may write the same status, and the second echo passes for an update |
| Reuse.InstallUnderWayIsHarmful | pkg/tiller/release_server.go:648-745 | So does the install of an earlier object whose status write is still to come |
| Recreation.LateRollbackClaimsTooMuch | pkg/tiller/release_server.go:411-420 | A concrete run: a rollback that read before a purge writes after it, and the new object claims revision 1 while none is stored |
| Recreation.ReturnAtOnceClaimsTooMuch | pkg/tiller/release_server.go:144-163 | A concrete run without any rollback: created, deleted and created again before the first notice is taken, the object claims revision 1 while none is stored |
| Outcomes.UpdateOutcome | pkg/tiller/release_server.go:217-340 | How every update ends: refused with the archive unchanged, its reason deciding its calls, its error and the release it leaves; or with the newest superseded and at most one revision n+1 added, the exact calls, fields, zero FirstDeployed and error of each end |
| Outcomes.FailedUpdateIsReported | pkg/tiller/release_server.go:247-257 | When KubeClient.Update failed the error is never nil: PublishFailed if the status write failed too, otherwise ReleaseExists from the second Create; exactly one revision is new, as FAILED, its predecessor SUPERSEDED, nothing else changed |
| Outcomes.UpdateDeploys | pkg/tiller/release_server.go:241-273 | An update succeeds if and only if it records DEPLOYED, and then its log is exactly: the rendering, validation of the rendered manifest, all pre-upgrade hooks of the rendering, KubeClient.Update from the recorded to the rendered manifest with the options of the release, all post-upgrade hooks, supersede, status write, record, with no failed call |
| Outcomes.UpdateDeploysUnlessFailing | pkg/tiller/release_server.go:217-340 | An update of a known release with a valid name and a chart that renders, no dry run, records DEPLOYED if and only if nothing it asked for failed |
| Outcomes.InstallOutcome | pkg/tiller/release_server.go:488-745 | How every install ends: refused with the archive unchanged; or its release recorded as revision 1 where there is none yet, and the archive unchanged where there is one, with the exact calls, fields and error of each end |
| Outcomes.InstallDeploys | pkg/tiller/release_server.go:648-745 | An install tries to record DEPLOYED only after rendering, validation, all pre-install hooks in the namespace named like the release, KubeClient.Create of the rendered manifest, and all post-install hooks succeeded, in that order; only the status write may have failed; the record is stored where revision 1 is free |
| Outcomes.InstallDeploysUnlessFailing | pkg/tiller/release_server.go:488-745 | An install with a chart that renders, no dry run, tries to record DEPLOYED if and only if nothing but the status write failed, and then revision 1 is stored as DEPLOYED unless there was one before |
| Outcomes.FailedInstallIsReported | pkg/tiller/release_server.go:698-729 | An install that tries to record FAILED stopped at the failing call; a refusal by Kubernetes is always reported, a failed post-install hook if and only if the status write failed too; the record is stored where revision 1 is free |
| HandlerLaws.UpdateShape | pkg/tiller/release_server.go:217-340 | By the ways an update can end, refusals in the order of their reasons included: its log, every field of the release it leaves but the times of hook runs, and its error; where a hook fails, the calls are those of the hooks before it and its own |
| HandlerLaws.FinishUpdateShape | pkg/tiller/release_server.go:258-273 | After a Kubernetes update, a failed post-upgrade hook ends the calls, reports itself and writes nothing to the archive |
| HandlerLaws.InstallShape | pkg/tiller/release_server.go:488-745 | The same for an install |
| HandlerLaws.UninstallShape | pkg/tiller/release_server.go:830-895 | The same for an uninstall without purge: stopped by a pre-delete hook or discovery it writes nothing; otherwise DELETING is stored before the deletions and DELETED after them whatever they answered, and the error counts every failure |
| HandlerLaws.UninstallOnlyRewrites | pkg/tiller/release_server.go:832-890 | Without purge the only writes replace the newest revision by itself with another code and hook stamps |
| HandlerLaws.DeleteAllTrace | pkg/tiller/release_server.go:863-874 | One delete call per file in list order, whatever earlier ones answered, and as many errors as failures |
| HandlerLaws.CreateAgain | pkg/tiller/release_server.go:253-256 | After the failure branch recorded the revision, the later Create finds its key taken |
| Rollbacks.RollbackAppends | pkg/tiller/release_server.go:431-473 | The update after a rollback to r appends at most n+1 and touches nothing but n, which is at most superseded; on success n+1 has r's Chart, and r's Config unless that is absent, "" or "{}\n", in which case that of n; all pre- and post-upgrade hooks of the rendering ran, or none at all when the request disables hooks |
| Rollbacks.RollbackPicks | pkg/tiller/release_server.go:432-472 | With revisions 1..n a request is accepted if and only if its name is valid and the picked revision lies in 1..n; the target has that revision's Chart, Config, Manifest and Hooks, the DryRun, DisableHooks and Timeout of the request, no other switch, and the newest revision's status; each refusal has its own error |
| Rollbacks.RollbackPublishes | pkg/tiller/release_server.go:343-420 | The one write of a rollback carries exactly such a target under the identity of the live object |
| Rollbacks.KeyPicks | pkg/tiller/release_server.go:432-453 | The key of revision v picks v; version 0 picks n-1 |
| Rollbacks.OtherSuffixPicksPrevious | pkg/tiller/release_server.go:437-453 | A suffix that is no number picks n-1 |
| Rollbacks.StaleTargetIsHarmless | pkg/tiller/release_server.go:328-330 | Version, Manifest and Hooks of the release handed to an update influence neither its effects nor its error, so a stale rollback target cannot collide |
| Rollbacks.RollbackIsDispatched | pkg/tiller/release_server.go:174-178 | The rollback's write is taken for an update if and only if the live status equals the newest revision's and the spec changes |
| Rollbacks.RollbackAfterInstallIsIgnored | pkg/tiller/release_server.go:471-471 | Since FirstDeployed is not archived, the write is taken for an update if and only if the live object's is zero already: right after an install a rollback is ignored |
| HookLaws.ExecHookTrace | pkg/tiller/release_server.go:757-792 | Create then WatchUntilReady for exactly the hooks carrying the event, in list order, up to the first failure; LastRun changes on exactly the matching hooks before it, and no other hook changes |
| HookLaws.RunHooksTrace | pkg/tiller/release_server.go:242-246 | A guarded run makes all those calls, or those of the hooks before a failing one and that one's, stamps exactly the hooks that succeeded, and changes nothing else |
| HookLaws.StampsAreReadings | pkg/tiller/release_server.go:785-789 | The LastRun of a hook that succeeded is what the clock showed right after it was waited for |
| HookLaws.CallsAskHooks | pkg/tiller/release_server.go:757-792 | When no hook fails, exactly the hooks carrying the event are asked for, in list order, each created without waiting and then waited for, with the run's namespace and timeout |
| Requests.UpdateAsks | pkg/tiller/release_server.go:422-427 | Whatever fails, an update asks Kubernetes at most once to update resources, and then from the manifest stored at the newest revision to the rendered one, with the Recreate, Timeout and Wait of the release; it validates the rendered manifest, runs only rendered hooks of its two events and none where hooks are disabled, and asks for nothing else; a dry run only validates |
| Requests.InstallAsks | pkg/tiller/release_server.go:648-745 | The same for an install: the rendered manifest is created in the release's namespace with its Timeout and Wait |
| Requests.InstallRunsFiles | pkg/tiller/release_server.go:658-715 | In terms of the chart's files: an install recorded as DEPLOYED has created and awaited every file that lists "pre-install" in its hook annotation, in whatever case, before the manifest, in the namespace named like the release, and every file that lists "post-install" after it |
| Requests.UpdateRunsFiles | pkg/tiller/release_server.go:241-263 | The same for an update, "pre-upgrade" and "post-upgrade", around KubeClient.Update |
| Renderings.RenderingMeans | pkg/tiller/release_server.go:577-635 | The notes are those of <chart>/templates/NOTES.txt; every other file that is no notes file is passed over, one of the hooks, or shown in the manifest behind a separator and its name, as its name and head call for |
| Renderings.InstallRenders | pkg/tiller/release_server.go:520-546 | An install renders its chart with its own values, or none, for revision 1 in its namespace, as an install |
| Renderings.UpdateRenders | pkg/tiller/release_server.go:303-330 | An update renders its chart for the revision after the newest, as an upgrade, with its own values, or those of the newest revision where it has none |
| Renderings.UpdateValues | pkg/tiller/release_server.go:279-284 | The release an update leaves and records: a config that is neither absent, "" nor "{}\n" is kept; one that is gives way to the newest revision's, unless that is empty, too |
| Uninstalls.UninstallShort | pkg/tiller/release_server.go:804-829 | An invalid name and a name without revisions are refused, with different errors, and nothing is done; where the newest revision asks for a purge, revisions 1 to n go, oldest first, without error, other names are untouched, and Kubernetes is asked for nothing |
| Uninstalls.UninstallAsks | pkg/tiller/release_server.go:830-896 | Whatever fails, an uninstall without purge runs only hooks of its two events, discovers, and deletes only texts that parse to a head without a "helm.sh/resource-policy" annotation; it asks for nothing else |
| Uninstalls.PolicyDecides | pkg/tiller/resource_policy.go:32-56 | The life of one file: after an install, uninstalling deletes the document of an ordinary file if and only if the file carries no "helm.sh/resource-policy" annotation |
| Conservation.RenderedIsDeleted | pkg/tiller/release_server.go:849-874 | Uninstalling a revision that carries a rendered manifest passes to KubeClient.Delete the documents of exactly the rendered generic manifests without a policy: each once, no others, by the uninstall rank of the kind each document itself declares |
| Conservation.InstallThenUninstall | pkg/tiller/release_server.go:849-874 | The same from the first install of a name to a later uninstall of the object, as long as nothing else happens to the name's stored revisions |
| Conservation.UpdateThenUninstall | pkg/tiller/release_server.go:849-874 | The same from an update to a later uninstall |
| Specimen.ServiceIsDeleted | pkg/tiller/release_server.go:849-874 | A witness that the conditions of InstallThenUninstall can be met: in an environment that grants every call and reads the same head from every text, a release of any single plain file has its one document deleted |
| Conservation.UninstallDeletes | pkg/tiller/release_server.go:839-874 | Uninstalling a recorded blob reaches its deletions unless a pre-delete hook or discovery fails; it cannot be refused as corrupted |
| Conservation.ListingOfRecorded | pkg/tiller/release_server.go:849-858 | Splitting and reclassifying a recorded blob succeeds and selects the unannotated documents in uninstall order, each with the head its content parses to |
| Conservation.RecordedByInstall | pkg/tiller/release_server.go:545-547 | The first install of a name that records anything archives the manifest it rendered as revision 1 |
| Conservation.RecordedByUpdate | pkg/tiller/release_server.go:328-330 | An update that records anything archives the manifest it rendered as the newest revision |
| Conservation.RenderingIsPlausible | pkg/tiller/release_server.go:577-635 | A rendering makes discovery calls only, and none failed when it succeeds |
| ManifestBlob.DeletesWhatWasRecorded | pkg/tiller/release_server.go:849-874 | The contents left for deletion and the recorded unannotated documents are equal as multisets, and ordered by kind |
| ManifestBlob.UninstallRecovers | pkg/tiller/release_server.go:849-850 | Reclassifying the pieces yields no hook and exactly the recorded manifests, in any order of visiting |
| ManifestBlob.UninstallAccepts | pkg/tiller/release_server.go:850-857 | No recorded manifest makes uninstall refuse the record |
| ManifestBlob.SplitBlob | pkg/tiller/release_server.go:628-632 | Splitting the written blob gives the empty piece and the documents if and only if no separator occurs across a document's end |
| ManifestBlob.OnlyContentMatters | pkg/tiller/release_server.go:629-631 | For a name without a newline only newline + content + what follows decides whether a separator occurs |
| ManifestBlob.CleanContentsAreSeparate | pkg/tiller/release_server.go:629-631 | Names without newlines and contents clean between newline and "\n---" suffice for that |
| ManifestBlob.Aggregate | pkg/tiller/release_server.go:627-632 | The buffer loop writes every document behind its own separator, in order |
| ManifestBlob.SplitManifests | pkg/tiller/release_server.go:898-911 | The loop maps the i-th piece to manifest-i and nothing else |
| ManifestBlob.SplitManifestsLossless | pkg/tiller/release_server.go:898-911 | For every string: as many entries as pieces, joined in index order they give back the input, and no entry holds the separator |
| Manifests.SortManifests | pkg/tiller/hooks.go:107-170 | Fails if and only if some file is rejected, with the error of one such file; otherwise hooks and generics are exactly what the files call for, each once, generics ordered by kind |
| Manifests.OrderOfFilesIsIrrelevant | pkg/tiller/hooks.go:111-111 | Any two visiting orders give the same multisets of hooks and of generics |
| Manifests.EveryFileLandsOnce | pkg/tiller/hooks.go:111-168 | Each file is exactly one hook, or exactly one generic manifest, or in neither list when skipped or an unknown hook |
| Manifests.Classify | pkg/tiller/hooks.go:112-167 | Where one file goes: partial, blank, unparsable, unavailable version, generic, hook or dropped unknown hook |
| Annotations.PlaceMeans | pkg/tiller/hooks.go:112-167 | The same in the file's own terms: passed over if the last element of its path begins with an underscore or it holds nothing but blanks; rejected if it has no head or names a version not served; generic without a "helm.sh/hook" annotation; otherwise a hook of the events that annotation lists, or dropped |
| Annotations.OneEvent | pkg/tiller/hooks.go:33-53 | A file whose hook annotation is one of the eight words is the hook of exactly the event of that name |
| Annotations.ListedEvents | pkg/tiller/hooks.go:153-161 | An annotation listing several of the words between commas, with blanks around them and in any letter case, makes the file the hook of those events, in that order |
| GoStrings.SpellingIsTrimming | pkg/tiller/hooks.go:155-155 | Trimming and lower-casing a word gives a name exactly when the word is that name in some letter case with nothing but blanks around it |
| Manifests.ParseEvents | pkg/tiller/hooks.go:153-161 | The events are those whose names the tokens spell, in order, blanks and letter case aside, and no other token spells one; there is a hook if and only if there is an event |
| Manifests.NewVersionSet | pkg/tiller/hooks.go:66-72 | The set holds exactly the listed versions |
| ManifestBlob.FilterManifestsToKeep | pkg/tiller/resource_policy.go:32-56 | remaining holds exactly the manifests without a "helm.sh/resource-policy" annotation, keep exactly those whose annotation spells "keep", each in the order of the input |
| ManifestBlob.PoliciesPartition | pkg/tiller/resource_policy.go:32-56 | keep, remaining and the manifests with another policy, which are in neither, make up the input, each counted once |
| ManifestBlob.SelectedMean | pkg/tiller/resource_policy.go:38-52 | Membership in each selection is decided by that annotation of the manifest's head alone |
| ManifestBlob.SelectDistributes | pkg/tiller/resource_policy.go:36-54 | Each group keeps the input's order: selecting commutes with cutting the list anywhere |
| ManifestBlob.SelectedStayOrdered | pkg/tiller/resource_policy.go:36-54 | A list ordered by kind stays so when filtered |
| KindSorter.LessIsStrictWeakOrder | pkg/tiller/kind_sorter.go:62-75 | Irreflexive, asymmetric, transitive, and incomparability is transitive, for every table |
| KindSorter.LessComparesRanks | pkg/tiller/kind_sorter.go:62-75 | Less compares places in the order, an unknown kind being behind all others and duplicates counting by their last place |
| KindSorter.SortByKind | pkg/tiller/kind_sorter.go:35-39 | In place, a permutation in non-decreasing rank |
| KindSorter.UnknownKindsComeLast | pkg/tiller/kind_sorter.go:66-73 | In a sorted list no unknown kind precedes a named one |
| KindSorter.InstallsInSequence | pkg/tiller/kind_sorter.go:27-27 | Sorted for installing, no kind precedes one that stands before it in: Namespace, Secret, ConfigMap, PersistentVolume, ServiceAccount, Service, Pod, ReplicationController, Deployment, DaemonSet, Ingress, Job; other kinds come last |
| KindSorter.UninstallsInSequence | pkg/tiller/kind_sorter.go:30-30 | The same for uninstalling: Service, Pod, ReplicationController, Deployment, DaemonSet, ConfigMap, Secret, PersistentVolume, ServiceAccount, Ingress, Job, Namespace |
| KindSorter.NewKindSorter | pkg/tiller/kind_sorter.go:46-56 | The table maps exactly the named kinds, each to its last index |
| KindSorter.Swap | pkg/tiller/kind_sorter.go:60-60 | Exchanges two places and keeps all others |
| Revisions.SortByRevision | pkg/releaseutil/sorter.go:71-89 | In place, an ascending permutation |
| Revisions.Reverse | pkg/releaseutil/sorter.go:36-41 | The list becomes the exact mirror of its sorted permutation |
| Revisions.SwapEnds | pkg/releaseutil/sorter.go:38-40 | The two-index loop mirrors any list in place |
| ReleaseKey.KeysAreInjective | pkg/storage/storage.go:169-171 | No two pairs of name and int32 version share a key |
| ReleaseKey.NumericSuffix | pkg/tiller/release_server.go:437-438 | A number behind the last dash, with or without "v", asks for its lowest 32 bits as a signed number, and for -1 when it exceeds 64 bits |
| ReleaseKey.NameRoundTrip | pkg/storage/driver/release_version.go:267-272 | The name comes back from its key if and only if the version is not negative; otherwise with "-v" behind it |
| ReleaseKey.VersionRoundTrip | pkg/tiller/release_server.go:432-438 | The suffix parse recovers the version of every key with a non-negative version |
| ReleaseKey.NonNumericSuffix | pkg/tiller/release_server.go:432-438 | Any other suffix asks for version 0 under the name in front of it |
| ReleaseKey.SplitKey | pkg/storage/driver/release_version.go:268-269 | Splitting a key gives the name's pieces followed by one piece for the version, or two when it is negative |
| ReleaseName.ValidNameIsFlat | pkg/tiller/release_server.go:96-96 | The nested repetition accepts exactly the non-empty strings over [-A-Za-z0-9_.] that begin and end alphanumerically |
| GoStrings.SplitUndoesJoin | pkg/tiller/release_server.go:906-906 | Splitting joined pieces gives them back if and only if the separator occurs neither in a piece nor across the end of one |
| GoStrings.SplitLossless | pkg/tiller/release_server.go:906-906 | Joining the pieces gives back the string, and no piece holds the separator |
| Archive.MeaningAt | pkg/storage/driver/release_version.go:216-244 | The object at a key is the record at the key's name and version, in both directions |
| Archive.DecodesAlike | pkg/storage/driver/release_version.go:251-265 | Reading an object back is reading its record back |
| Archive.CreatingMeansCreating | pkg/storage/driver/release_version.go:137-159 | Creating a release's object adds its record, and never overwrites one; keys and labels stay in step |
| Archive.UpdatingMeansUpdating | pkg/storage/driver/release_version.go:163-183 | Updating a release's object replaces its record and never adds one |
| Archive.DeletingMeansRemoving | pkg/storage/driver/release_version.go:186-201 | Deleting the object at a key removes the record at its name and version |
| Archive.ReleaseVersions.NewReleaseVersionObject | pkg/storage/driver/release_version.go:216-244 | The object carries the key <name>-v<version>, the record, and the labels NAME, OWNER TILLER, STATUS with the code's name, and VERSION |
| Archive.ReleaseVersions.Create | pkg/storage/driver/release_version.go:137-159 | ErrReleaseExists if and only if the record exists, and then nothing changes |
| Archive.ReleaseVersions.Update | pkg/storage/driver/release_version.go:163-183 | Fails if and only if the record is missing, and then nothing changes |
| Archive.ReleaseVersions.Get | pkg/storage/driver/release_version.go:66-95 | The stored spec under the name its key spells, without a status, or not found |
| Archive.ReleaseVersions.Delete | pkg/storage/driver/release_version.go:186-201 | Removes the record, or reports not found and does nothing |
| Archive.ReleaseVersions.Query | pkg/storage/driver/release_version.go:107-133 | Each object with the labels exactly once, decoded, or not found when there are none |
| Archive.Storage.Get | pkg/storage/storage.go:37-40 | The record at name and version without its status, or not found |
| Archive.Storage.Create | pkg/storage/storage.go:45-48 | Adds the record at the release's name and version, or fails on an existing one |
| Archive.Storage.Update | pkg/storage/storage.go:53-56 | Replaces the record at the release's name and version, or fails on a missing one |
| Archive.Storage.Delete | pkg/storage/storage.go:61-64 | Removes the record at name and version, or reports not found |
| Archive.Storage.History | pkg/storage/storage.go:136-149 | Every stored revision of the name exactly once and no other, or not found when there are none |
| Archive.Storage.Last | pkg/storage/storage.go:152-164 | The revision of maximal version, with Kind Release and APIVersion helm.sh/v1beta1, for every non-empty history |
| Archive.Storage.SortedHistory | pkg/tiller/release_server.go:810-820 | The history, oldest first |
| Archive.LabelledKeys | pkg/storage/storage.go:138-140 | The objects labelled with a name are those whose keys that name spells |
| Worlds.RecordRoundTrip | pkg/storage/driver/release_version.go:216-265 | Storing and reading back loses FirstDeployed and the type and nothing else, and addresses the same entry, for every release with a version >= 0 |
| ReleaseServer.ReleaseServer.UpdateRelease | pkg/tiller/release_server.go:217-232 | Leaves archive, log, release and error as the update function whose laws are above says, for the history stored and a rendering of its chart |
| ReleaseServer.ReleaseServer.PrepareUpdate | pkg/tiller/release_server.go:287-340 | The same for the preparation; the release is updated in place |
| ReleaseServer.ReleaseServer.PerformUpdate | pkg/tiller/release_server.go:234-274 | The same for the performance; every KubeClient.Update it asks for goes from the original's manifest to the updated one's, with the updated release's namespace and options |
| HandlerLaws.PerformUpdateAsks | pkg/tiller/release_server.go:422-427 | The same of the function: whatever is answered, no other update of resources is asked for |
| ReleaseServer.ReleaseServer.ReuseValues | pkg/tiller/release_server.go:279-284 | Changes nothing but the config, and that only if it is absent, "" or "{}\n" and the current one is none of these: then to the current one |
| ReleaseServer.ReleaseServer.InstallRelease | pkg/tiller/release_server.go:488-505 | Leaves archive, log, release and error as the install function says |
| ReleaseServer.ReleaseServer.PrepareRelease | pkg/tiller/release_server.go:508-555 | The same for the preparation |
| ReleaseServer.ReleaseServer.PerformRelease | pkg/tiller/release_server.go:648-745 | The same for the performance |
| ReleaseServer.ReleaseServer.UninstallRelease | pkg/tiller/release_server.go:804-896 | Leaves archive, log, newest revision and error as the uninstall function says, for the stored history and a listing of its manifest |
| ReleaseServer.ReleaseServer.PurgeReleases | pkg/tiller/release_server.go:794-801 | Removes the given revisions in order up to the first missing one |
| ReleaseServer.ReleaseServer.DeleteManifests | pkg/tiller/release_server.go:863-874 | Calls Delete for every file and collects one error per failure |
| ReleaseServer.ReleaseServer.ListManifests | pkg/tiller/release_server.go:849-857 | Takes the recorded manifest apart, classifies and orders it |
| ReleaseServer.ReleaseServer.PrepareRollback | pkg/tiller/release_server.go:343-361 | Prepares the target the rollback function says, from the stored history, with the switches of the request and no others, changing nothing |
| ReleaseServer.ReleaseServer.RollbackRelease | pkg/tiller/release_server.go:343-420 | Leaves archive, log and error as the rollback function says |
| ReleaseServer.ReleaseServer.ExecHook | pkg/tiller/release_server.go:757-792 | Runs and stamps the release's hooks in place as the hook function whose trace is above says |
| ReleaseServer.ReleaseServer.RecordRelease | pkg/tiller/release_server.go:637-645 | Performs the Update or Create and swallows its error |
| ReleaseServer.ReleaseServer.RenderResources | pkg/tiller/release_server.go:577-635 | Yields the notes of the chart itself, and hooks and a blob of exactly the other files, or the error of one of them |
| ReleaseServer.ReleaseServer.ExtractNotes | pkg/tiller/release_server.go:590-600 | Separates exactly the files whose names end in NOTES.txt and returns <chart>/templates/NOTES.txt |
| ReleaseServer.ReleaseServer.GetVersionSet | pkg/tiller/release_server.go:557-575 | The served versions, v1 alone when discovery knows no groups, or its error |

## Left out

- Release names over 63 characters or otherwise invalid as label values: SelectorFromSet then selects everything.
- The algorithm of sort.Sort: the sorting methods here keep its contract; SortByRevisionVersion is the same function as SortByRevision.
- Unicode beyond single characters: TrimSpace knows Go's Latin-1 blanks, ToLower the ASCII letters.
- Archive.Storage.History: the listed releases are values until one is picked, so two listings never share an element.
- Conservation.InstallThenUninstall: a YAML head is a given function that skips a leading comment line.
- Quiescence.RunKeepsCalm: no clock shows the zero time, and users write the spec of an object but never its status.
- Controller.EveryReachableArchive: one namespace, so switching the store per namespace in AddFunc is not modelled.
- Refinement.HandlerRefinesMethod: the two API calls that read and write the object in a rollback are one step, since a write in between makes the second fail.
- Informers, ListWatch, REST clients, field selectors: only the dispatch rule on snapshots is kept; events are values.
- Template rendering (and the time handed to templates), value merging, the YAML parser and manifest validation are oracles; chart names that path.Join would rewrite are not modelled.
- JSON decoding of the rollback message, the texts of errors, and logging.
- The "unknown hook" error of execHook: every caller passes a name of the table.
- The manifest blob returned beside a rendering error, which every caller drops.
- Atoi of more digits than an int64 holds, followed by something that is no digit: Go yields the bound, the model 0.
- Driver.List, Storage.Deployed, ListReleases and the filters: stubs or unused.
- summarizeKeptManifests, the second purge block (pkg/tiller/release_server.go:881), the commented-out blocks, EngineYard, PrintingKubeClient and main.
