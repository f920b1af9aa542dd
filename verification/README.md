# RKE2 control-plane supervision: a Dafny model

RKE2 runs the Kubernetes control plane as static pods and keeps it in line with its configuration.
The code that does this is a set of loops and protocols over state that others write too: the
kubelet, other API clients, the file system. This project models those parts and proves what they
do, over every input, every interleaving and every crash point. `dafny verify dfyconfig.toml`
checks the whole project.

## What is modelled, and what comes out

* **Loops that delete from the slice they range over** (`Compaction`, `StaticPodCleanup`,
  `Finalizers`, `ApiServerArgs*`, `ApiServerReports`, `ApiServerPod`). The loops are methods over real arrays: the range keeps its old
  header, elements are read live, a shift leaves a stale last cell, `DeleteFunc` zeroes the tail.
  `Compaction.Survivors` is what such a loop leaves behind: every deletion shields the next element.
  * Pod cleanup: a poll is a filter exactly when no two neighbouring names are both gone. When
    nothing runs any more, k polls leave every 2^k-th name, so polling ends after k polls exactly
    when the list is shorter than 2^k.
  * Finalizer removal: for a node that carries the key the patch is what survives the loop, filled up
    with copies of the last finalizer to one less than before. So it is the removal of the key exactly
    when the key occurs once, and never loses another finalizer, but may repeat the last one.
  * API server arguments: the exact condition on the caller's arguments under which the rewriting
    loop does what it is meant to do. Besides the ordinary one (`Separated`) there are two families
    that come out right by the stale cell (`ReplacedThenRemovedAtEnd`) and by a flag that already is
    the replacement (`KineShieldedInFront`). On safe arguments the meaning of every flag is settled:
    the caller's value if given, else the injected one, and the kine address for a replaced
    `--etcd-servers`. The reported audit path is right exactly when the last `--audit-log-path` is not
    shielded by a removed flag, or has the value read before it.
* **Reconciliation of sandboxes** (`PodSync`, `PodSyncRuns`): one check is in sync exactly when the
  listing shows the one chosen, ready sandbox of the manifest's uid; over whole runs no poll removes
  the sandbox it chose, wrong sandboxes never increase once a manifest is settled, and a poll that
  completes without a refused removal leaves none.
* **Optimistic concurrency** (`ServiceAccounts`, `NamespacePolicies`, `NamespacePolicy*`): other
  writers and failing calls are a script, so that a statement for every script is one for every
  interleaving. The service account calls are functions of the server's history: whatever the others
  do, the call either leaves exactly their writes, or puts one revision right on top of the last of
  them that differs from it in automount, which is false, and version only; it ends with an error
  exactly as its requests are answered. The namespace loop is
  a class whose methods compute, state and log, exactly the functions of `NamespacePolicies`; about
  these it is proved, under every script:
  * the client's copy is a function of what it has read and sent (`Knowledge`), and each update sends,
    for every key, the first value the call has seen;
  * the requests come in the order of the code, and the call returns nil exactly when every answer was
    one it may go on from: anything to a policy lookup, not found to a deletion, already exists to a
    creation, a conflict to an update;
  * one update goes out for each template missing at its turn, right after its policy was created or
    found, and a key is stored by the call exactly when its update or a later one is accepted;
  * an accepted update replaces the revision last read and keeps its keys; it keeps a value exactly
    when that is the first one the call has seen, so what another client wrote meanwhile is undone;
  * the result of an accepted update is thrown away, so the copy is stale and at most every second
    update (rounded up) is accepted;
  * no policy call is made for a key the server had at the call's first read, and over any number of
    calls a stored key that nobody else takes away stays stored and its policy is left alone. This
    needs that no two keys share a policy name, as is the case for the source's templates.

  Undisturbed, the last missing key is recorded exactly when the number of missing templates is odd.
  The six kube-system templates are an even number: on a first start the metrics-server key is
  not recorded, and the second start deletes and recreates that policy.
* **Files** (`Staging`, `ManifestDir`): machines of single file operations with a crash possible
  anywhere. The staging marker implies complete content exactly when cleaned-up directories do not
  lose content before their marker; in plain directory order there is a run that skips
  extraction over incomplete content. For every order of removal a run is safe exactly when no crash
  hits a directory under deletion that has its marker over incomplete content. Manifests are always
  whole, and appear only behind their gates.
* **Configuration** (`Charts`, `IngressRule`, `ControlPlaneConfig`, `PodVolumes`): chart rewriting in
  an arbitrary map order, with the exact condition for the order not to matter and a second pass that
  never writes; a canonical ingress rule; assignment lists; volume names.

Two comments in the sources do not describe the code, and the model follows the code.
`pkg/executor/staticpod/cleanup.go:40-41` says a cluster reset forces pod termination even without
manifests; the components are selected only if their manifest exists. `pkg/rke2/np.go:299-302` calls
the refresh part of a get/change/update pattern; after the refresh there is no update.

What the code gets from outside is a parameter: `PodSandboxChanged` (its contract is
`PodSync.Contract`), `net.ParseCIDR`, `os.Stat`, the iteration order of maps, listings, faults, and
what other clients do. Retry step counts are parameters too (10 and 4 in the source).

## Model

| member | source | states |
|---|---|---|
| `Compaction.SurvivorsAreKeptIff` | pkg/executor/staticpod/cleanup.go:170-185 | a range-and-delete loop leaves the intended elements exactly when no two neighbours are both to be dropped |
| `Compaction.SurvivorsCleanIff` | pkg/executor/staticpod/staticpod.go:208-223 | nothing that should have gone survives exactly when no two neighbours are both to be dropped |
| `Compaction.ShiftOut` | pkg/executor/staticpod/staticpod.go:212 | the in-place append shifts the cells left and leaves the last one stale |
| `StaticPodCleanup.DeleteFunc` | pkg/executor/staticpod/cleanup.go:183 | the kept names in order at the front, the freed cells zeroed, the rest of the array untouched |
| `StaticPodCleanup.Cleaner.RemoveMatching` | pkg/executor/staticpod/cleanup.go:171-180 | every file-sourced sandbox of the component is handed to removal, and found says whether there was one |
| `StaticPodCleanup.Cleaner.RangeOver` | pkg/executor/staticpod/cleanup.go:170-185 | the range over the old header on the array being compacted yields the specified list and removals |
| `StaticPodCleanup.Cleaner.Poll` | pkg/executor/staticpod/cleanup.go:152-189 | one poll maps the work list and the removals as specified; it is done exactly when a listing was obtained and no name is left |
| `StaticPodCleanup.NamesLeaveOnlyWhenAbsent` | pkg/executor/staticpod/cleanup.go:170-188 | over any run of listings a name leaves only through a poll whose listing had no file-sourced sandbox for it |
| `StaticPodCleanup.CompletionMeansAllAbsent` | pkg/executor/staticpod/cleanup.go:187-188 | when polling completes, every original name was absent from some listing |
| `StaticPodCleanup.RemovalsStayInScope` | pkg/executor/staticpod/cleanup.go:172-179 | only file-sourced sandboxes labelled with an original name, or with nothing (the zeroed tail), are ever removed |
| `StaticPodCleanup.PollLeaves` | pkg/executor/staticpod/cleanup.go:170-185 | for distinct non-empty names a poll leaves exactly the survivors: an absent name shields the next one |
| `StaticPodCleanup.PollRemoves` | pkg/executor/staticpod/cleanup.go:170-180 | the removals of one poll, exactly: those of the visited names in order, then those without a label |
| `StaticPodCleanup.RunningIsRemoved` | pkg/executor/staticpod/cleanup.go:173-180 | the sandboxes of a running static pod are removed and its name stays, unless it follows a name just forgotten |
| `StaticPodCleanup.RunningStays` | pkg/executor/staticpod/cleanup.go:182-184 | in any poll a name whose static pod runs stays on the list |
| `StaticPodCleanup.FirstAbsentGoes` | pkg/executor/staticpod/cleanup.go:182-184 | the first name goes when its static pod does not run |
| `StaticPodCleanup.PollIsFilterIff` | pkg/executor/staticpod/cleanup.go:181-184 | the poll forgets every absent name exactly when no two neighbouring names are both absent |
| `StaticPodCleanup.PollShrinksIff` | pkg/executor/staticpod/cleanup.go:181-184 | the list shrinks exactly when some listed name has no sandbox |
| `StaticPodCleanup.PollHalves` | pkg/executor/staticpod/cleanup.go:170-185 | when nothing is found the names at odd positions remain |
| `StaticPodCleanup.HalvingRun` | pkg/executor/staticpod/cleanup.go:152-189 | k polls that find nothing leave every 2^k-th name, and none exactly when the list had fewer than 2^k |
| `StaticPodCleanup.Host.SelectDisabled` | pkg/executor/staticpod/cleanup.go:28-66 | exactly the disabled components with a manifest are selected and their manifests deleted, also on a cluster reset |
| `Finalizers.RemoveFinalizer` | pkg/controllers/cisnetworkpolicy/cleanup.go:51-66 | the aliasing loop sends the specified view of the shifted array |
| `Finalizers.OtherFinalizersUntouched` | pkg/controllers/cisnetworkpolicy/cleanup.go:54-59 | the patch holds the same other finalizers as the node |
| `Finalizers.PatchExactly` | pkg/controllers/cisnetworkpolicy/cleanup.go:52-59 | for any number of keys: what survives the loop, padded with the last finalizer to one less than before |
| `Finalizers.OtherFinalizersCount` | pkg/controllers/cisnetworkpolicy/cleanup.go:54-59 | every other finalizer is there as often as before, but for the copies of the last one |
| `Finalizers.PatchIsRemovalIff` | pkg/controllers/cisnetworkpolicy/cleanup.go:52-59 | one shorter when the key occurs, and the order-preserving removal exactly when it occurs once |
| `Finalizers.KeyClearedIff` | pkg/controllers/cisnetworkpolicy/cleanup.go:52-59 | the key is gone from the patch exactly when no two occurrences are neighbours and the last finalizer is no further occurrence |
| `ApiServerArgs.RewriteArgs` | pkg/executor/staticpod/staticpod.go:206-223 | the loop over the aliased array computes the step machine's outcome, including the out-of-range panic |
| `ApiServerArgs.Visit` | pkg/executor/staticpod/staticpod.go:208-222 | one round of the loop is one step of the machine |
| `ApiServerArgs.ServerConfigIsValid` | pkg/executor/staticpod/staticpod.go:216 | the replacement argument is itself an --etcd-servers flag |
| `ApiServerArgsExact.PassedStays` | pkg/executor/staticpod/staticpod.go:208-223 | an argument the index has passed is never taken away, only pushed right |
| `ApiServerArgsExact.CleanNeverGrows` | pkg/executor/staticpod/staticpod.go:208-223 | the loop never adds an argument that is not a dropped flag |
| `ApiServerArgsExact.DroppedLastCellPanics` | pkg/executor/staticpod/staticpod.go:212-215 | once something was removed, a dropped flag in the last cell panics |
| `ApiServerArgsExact.ReplacedElseWrong` | pkg/executor/staticpod/staticpod.go:213-217 | after the replacement any further dropped flag spoils the result, but for one removed flag at the very end |
| `ApiServerArgsExact.ShortenedRun` | pkg/executor/staticpod/staticpod.go:208-223 | from any state after a removal: the exact outcome when the rest is safe, a wrong one otherwise |
| `ApiServerArgsTheorem.RewriteIsRightIff` | pkg/executor/staticpod/staticpod.go:206-223 | the loop yields the filtered arguments, with the kine address in front if replaced, exactly when the arguments are safe; then it reports what it saw |
| `ApiServerReports.ReportsRightIff` | pkg/executor/staticpod/staticpod.go:218-221 | on safe arguments the audit path is right exactly when the last one is not shielded or has the value read before, and the address-types flag exactly when none was given or one is not shielded |
| `ApiServerReports.OutcomeIsRightIff` | pkg/executor/staticpod/staticpod.go:206-223 | arguments and both reports are right exactly when the arguments are safe and no report is misread |
| `ApiServerReports.HiddenAuditPath` | pkg/executor/staticpod/staticpod.go:210-219 | a removed flag, an audit path and a plain flag: right arguments, and the audit path goes unnoticed |
| `ApiServerArgsTheorem.AdjacentRemovedFlagSurvives` | pkg/executor/staticpod/staticpod.go:210-212 | a concrete list with two removed flags in a row, of which the second survives |
| `ApiServerPod.StaticPodConfig.ApiServerArguments` | pkg/executor/staticpod/staticpod.go:206-252 | the final arguments are the injected ones followed by the rewritten ones; panic, policy file error and defaulted policy file |
| `ApiServerPod.CallerFlagsWin` | pkg/executor/staticpod/staticpod.go:224-252 | with the last occurrence winning, what every flag means: the injected value if not given or removed, the kine address if replaced, else the caller's value |
| `ApiServerPod.AddressTypesEndToEnd` | pkg/executor/staticpod/staticpod.go:220-226 | the caller's preferred address types if given, else the default, in the final arguments |
| `ApiServerPod.InjectedMeans` | pkg/executor/staticpod/staticpod.go:224-252 | what the injected arguments say about every flag name, by name |
| `ApiServerPod.AuditPathEndToEnd` | pkg/executor/staticpod/staticpod.go:218-248 | the audit log path in the end: the caller's if given, the default with a policy file, else none |
| `ApiServerPod.ReportedLogIsInUse` | pkg/executor/staticpod/staticpod.go:235-264 | the audit log whose directory is mounted is the one in use, if the report is right and the given path not empty |
| `ApiServerPod.PolicyEndToEnd` | pkg/executor/staticpod/staticpod.go:228-252 | the policy file, log limits, token expiration and admission configuration in the end, if not given |
| `ApiServerPod.EtcdServersEndToEnd` | pkg/executor/staticpod/staticpod.go:213-217 | with an external database a given --etcd-servers ends up as the kine socket |
| `PodSync.GatherStatuses` | pkg/executor/staticpod/spw.go:126-144 | the statuses of this uid's sandboxes in order, vanished ones skipped, failing exactly if one of them fails |
| `PodSync.RemoveOutdated` | pkg/executor/staticpod/spw.go:150-158 | the ids handed to removal are those of the outdated sandboxes |
| `PodSync.StatusesInOrder` | pkg/executor/staticpod/spw.go:126-144 | exactly the sandboxes of this uid that reported a status, in the order of the listing |
| `PodSync.OutdatedInOrder` | pkg/executor/staticpod/spw.go:150-158 | exactly the sandboxes of another uid and those not chosen, in the order of the listing |
| `PodSync.CheckManifestDeployed` | pkg/executor/staticpod/spw.go:90-170 | synced exactly when one ready chosen sandbox of the uid is listed; every verdict exactly in its case; exactly the outdated sandboxes are removed |
| `PodSync.VerdictIsSound` | pkg/executor/staticpod/spw.go:146-169 | nothing outdated and no new sandbox needed is exactly being in sync |
| `PodSync.ReconcilePoll` | pkg/executor/staticpod/spw.go:70-82 | done exactly when every watched manifest is synced or missing; it stops at the first other one |
| `PodSyncRuns.KubeletChoice` | pkg/executor/staticpod/spw.go:146-147 | whatever the kubelet logic answers on the listed statuses is a choice of the run machine |
| `PodSyncRuns.RunKeepsInv` | pkg/executor/staticpod/spw.go:104-158 | in every reachable state a listing still names the same sandboxes and the choice is one of them |
| `PodSyncRuns.PollRemovesOnlyOutdated` | pkg/executor/staticpod/spw.go:149-158 | in every interleaving a poll removes neither the chosen sandbox nor one of its uid unless another was chosen |
| `PodSyncRuns.WrongCountFalls` | pkg/executor/staticpod/spw.go:55-86 | once the manifest is settled wrong sandboxes never increase, and strictly decrease when one is removed |
| `PodSyncRuns.CompletedPollClearsWrong` | pkg/executor/staticpod/spw.go:127-168 | a poll that completes without a refused removal leaves no sandbox of a wrong uid |
| `PodSyncRuns.VisitedExactly` | pkg/executor/staticpod/spw.go:151-157 | one round of the removal loop of the run machine, in plain terms |
| `PodSyncRuns.CompletedPollLeavesChosen` | pkg/executor/staticpod/spw.go:150-158 | in every interleaving a completed poll without refusals leaves of what it listed at most the chosen sandbox |
| `ManifestDir.ApiServerManifestAfterEtcd` | pkg/executor/staticpod/staticpod.go:201-286 | in every run, once the old manifest was removed, a kube-apiserver manifest exists only if the etcd test succeeded |
| `ManifestDir.GatedManifestsWaitForApi` | pkg/executor/staticpod/staticpod.go:305-343 | scheduler and controller-manager manifests change only by a rename after the apiserver channel closed |
| `ManifestDir.ManifestStep` | pkg/executor/staticpod/staticpod.go:661-688 | a manifest changes only by the rename of a writer's whole content |
| `ManifestDir.ManifestsAreWhole` | pkg/executor/staticpod/staticpod.go:661-688 | over all interleavings and crashes a manifest is its original or an issued content in full |
| `ManifestDir.SameContentIsLeft` | pkg/executor/staticpod/staticpod.go:668-671 | a writer that finds its content in place touches no file |
| `ServiceAccounts.Server.UpdateOnConflict` | pkg/rke2/serviceaccount.go:50-62 | for every script, the history, answer and number of updates are those of the specified loop |
| `ServiceAccounts.Server.RestrictServiceAccount` | pkg/rke2/serviceaccount.go:38-64 | the same for the whole call, which retries only on a missing account |
| `ServiceAccounts.AttemptOutcome` | pkg/rke2/serviceaccount.go:50-62 | under every script the inner loop stores nothing or one revision, made from the current one; success is one such commit, and a lost answer at most hides one; no more updates than steps |
| `ServiceAccounts.RestrictOutcome` | pkg/rke2/serviceaccount.go:38-64 | the same for the whole call |
| `ServiceAccounts.RestrictUpdates` | pkg/rke2/serviceaccount.go:42-50 | at most outer times inner updates |
| `ServiceAccounts.NoLostUpdate` | pkg/rke2/serviceaccount.go:38-64 | afterwards the server has what all writes of the others made of the account, and on success only automount and the version differ; the history is their writes and then ours |
| `ServiceAccounts.RestrictSucceeds` | pkg/rke2/serviceaccount.go:38-64 | without faults and deletions, with the account there and no more disturbed calls than inner steps, the call succeeds |
| `ServiceAccounts.RestrictWaits` | pkg/rke2/serviceaccount.go:42-49 | an account that appears within the outer rounds is waited for and restricted |
| `ServiceAccounts.AttemptErrors` | pkg/rke2/serviceaccount.go:50-62 | a conflict is returned only when all attempts are used up, not found only if the account is missing |
| `ServiceAccounts.FaultsEndTheCall` | pkg/rke2/serviceaccount.go:42-62 | under every script the call ends with that error exactly when one of its requests was refused or its answer lost |
| `NamespacePolicies.Server.Refresh` | pkg/rke2/np.go:303-318 | the revision then on the server with our annotations over it, logged; never a conflict |
| `NamespacePolicies.Server.Store` | pkg/rke2/np.go:243-253 | for every script, one update and on a conflict one refresh, never a second update |
| `NamespacePolicies.Server.Recreate` | pkg/rke2/np.go:229-240 | for every script, get, delete if present, create with already-exists accepted |
| `NamespacePolicies.Server.SetPolicies` | pkg/rke2/np.go:219-257 | for every script, the world, error, copy and log are those of the specified call |
| `NamespacePolicyLogs.UntouchedOnceRead` | pkg/rke2/np.go:228-241 | once a revision read has a key, its policy is not touched and no update is sent for it |
| `NamespacePolicyLogs.SentsGrow` | pkg/rke2/np.go:241-254 | what an update has sent goes unchanged with every later one, and no earlier one had its key |
| `NamespacePolicyLogs.StoredIffLaterAccepted` | pkg/rke2/np.go:241-254 | the call has stored a key exactly when its update or a later one was accepted |
| `NamespacePolicyLogs.SentIsFirstSeen` | pkg/rke2/np.go:312-316 | every update sends for each key the first value the call has seen, whatever others wrote later |
| `NamespacePolicyRuns.RunTracks` | pkg/rke2/np.go:219-257 | at every point of every call the log starts with the server's revision at the first read, is legal, and tells the copy exactly |
| `NamespacePolicyRuns.UpdatesAreMissing` | pkg/rke2/np.go:227-254 | without an error, exactly one update for each template missing at its turn, in order |
| `NamespacePolicyRuns.CopyHasTemplates` | pkg/rke2/np.go:227-257 | nil means every template's key is in the copy |
| `NamespacePolicyRequests.RunIsProper` | pkg/rke2/np.go:220-254 | under every script the requests come in the order of the code, each only after an answer that allows it |
| `NamespacePolicyRequests.NilIffTolerated` | pkg/rke2/np.go:220-257 | nil exactly when every answer is one the code goes on from, else the answer it stopped at |
| `NamespacePolicyRequests.RefusedDeletionEndsTurn` | pkg/rke2/np.go:230-234 | a policy that cannot be deleted ends the call and nothing is recorded |
| `NamespacePolicyRequests.FoundIsDeleted` | pkg/rke2/np.go:229-235 | a policy found and still there is deleted before it is created anew |
| `NamespacePolicyRequests.RecreatedIsThere` | pkg/rke2/np.go:229-240 | without an error the policy is there afterwards |
| `NamespacePolicyLogs.UpdateSendsResolved` | pkg/rke2/np.go:241-244 | a template's key goes out with the value "resolved" |
| `NamespacePolicyRuns.TurnExactly` | pkg/rke2/np.go:241-253 | the copy after a turn: with the key if accepted, and on a conflict that over the revision then on the server |
| `NamespacePolicyRuns.TouchedOnlyIfUnrecorded` | pkg/rke2/np.go:220-240 | a call touches only policies whose key the server did not have at its first read |
| `NamespacePolicyStarts.AppliedOnce` | pkg/rke2/np.go:277-291 | over any number of calls, a stored key nobody else takes away stays stored; if no other key shares its policy's name, that policy is neither deleted nor created, and stays while nobody else deletes it |
| `NamespacePolicyStarts.SharedPolicyIsDeleted` | pkg/rke2/np.go:228-235 | with two keys for one policy name, the call for the unrecorded key deletes the policy of the recorded one |
| `NamespacePolicyRuns.RunNames` | pkg/rke2/np.go:227-240 | the policies a call deletes, creates or finds are those of its templates, under their keys |
| `NamespacePolicyStarts.AcceptedReplacesLastRead` | pkg/rke2/np.go:243-253 | an accepted update replaces the revision last read, none accepted since, and keeps all its keys |
| `NamespacePolicyStarts.AcceptedKeepsValueIff` | pkg/rke2/np.go:312-316 | an accepted update keeps a key's value exactly when it is the first value the call has seen for it |
| `NamespacePolicyQuiet.ValueIsReverted` | pkg/rke2/np.go:243-253 | a value another client writes before the first of two updates is undone by a call that returns nil |
| `NamespacePolicyStarts.AtMostHalfAccepted` | pkg/rke2/np.go:244-251 | under every script at most every second update, rounded up, is accepted |
| `NamespacePolicyQuiet.QuietRecordsIff` | pkg/rke2/np.go:219-257 | undisturbed: nil, the missing policies exist, and exactly which keys are stored |
| `NamespacePolicyQuiet.KubeSystemIsDistinct` | pkg/rke2/np.go:41-196 | six distinct kube-system keys, none of them the default one |
| `NamespacePolicyQuiet.PolicyNamesAreDistinct` | pkg/rke2/np.go:41-196 | no two templates share a policy name |
| `NamespacePolicyQuiet.SourcePoliciesAppliedOnce` | pkg/rke2/np.go:277-291 | over any calls for the source's lists, a policy whose key is stored and stays is left alone |
| `NamespacePolicyQuiet.FirstStart` | pkg/rke2/np.go:280-288 | both calls of an undisturbed first start succeed and record all keys but that of metrics-server |
| `NamespacePolicyQuiet.SecondStart` | pkg/rke2/np.go:228-241 | the next start deletes the metrics-server policy, creates it anew and records it |
| `Staging.RunKeepsInv` | pkg/bootstrap/bootstrap.go:191-262 | what every step of staging with crashes keeps, when removal is atomic or takes the marker first |
| `Staging.SkipsOnlyComplete` | pkg/bootstrap/bootstrap.go:196-255 | extraction is skipped only over complete content, and the bin link points at complete content |
| `Staging.AnyOrderBreaks` | pkg/bootstrap/bootstrap.go:149 | a run with removal in directory order that ends by skipping extraction over incomplete content |
| `Staging.CrashSafeIff` | pkg/bootstrap/bootstrap.go:191-262 | the marker means complete content in all runs exactly when no content goes before its marker |
| `Staging.RunIsSafeIff` | pkg/bootstrap/bootstrap.go:121-154 | for every order of removal, a run is safe outside deletion exactly when no crash hits a marker over incomplete content |
| `Staging.DirHasShims` | pkg/bootstrap/bootstrap.go:100-118 | true exactly for an unreadable task list or a shim path with the directory as prefix |
| `Staging.InUseIsNoticed` | pkg/bootstrap/bootstrap.go:113-115 | a shim below the directory is always noticed |
| `Staging.CleanDataDirs` | pkg/bootstrap/bootstrap.go:121-154 | exactly the other release directories without a shim are taken, none in use |
| `Charts.RewriteExactly` | pkg/bootstrap/bootstrap.go:488-501 | for every order, the edits of the keys before the first failing one, in terms of the original content |
| `Charts.VerdictIsOrderFree` | pkg/bootstrap/bootstrap.go:488-506 | whether an object completes or counts as changed never depends on the order |
| `Charts.OrderFreeIff` | pkg/bootstrap/bootstrap.go:488-501 | the content is the same for every order exactly when nothing fails or nothing else would be edited |
| `Charts.SecondPassUnchanged` | pkg/bootstrap/bootstrap.go:488-506 | after one pass no order of a second pass changes the object |
| `Charts.FailsIff` | pkg/bootstrap/bootstrap.go:489-499 | which values make an object be given up, in terms of its content alone; a missing key does not |
| `Charts.CompletesIff` | pkg/bootstrap/bootstrap.go:488-501 | an object is gone through to the end exactly when no key fails so, whatever the order |
| `Charts.CompletedHasValues` | pkg/bootstrap/bootstrap.go:494-499 | it then has every value, but for an empty one that was not there |
| `Charts.ChangedIff` | pkg/bootstrap/bootstrap.go:494-506 | it counts as changed exactly when it was gone through and its content is another |
| `Charts.NeedsWriteIff` | pkg/bootstrap/bootstrap.go:488-512 | for which objects the file is written, in terms of their content alone |
| `Charts.EligibleIff` | pkg/bootstrap/bootstrap.go:473-553 | HelmCharts whose annotation says yes, or says neither while the environment says yes |
| `Charts.AnnotationIff` | pkg/bootstrap/bootstrap.go:540 | the annotation is read only if all annotations are strings |
| `Charts.RewriteObjectInPlace` | pkg/bootstrap/bootstrap.go:482-506 | the loop with its early exits computes the specified content and change flag |
| `Charts.RewriteChart` | pkg/bootstrap/bootstrap.go:464-512 | the file is written exactly when some eligible object has no failing key and needs an edit |
| `Charts.SecondPassWritesNothing` | pkg/bootstrap/bootstrap.go:326-340 | a rewritten file is not written again with the same values |
| `Charts.OnlySetKeysChange` | pkg/bootstrap/bootstrap.go:472-501 | only those spec.set keys of injection-enabled HelmCharts change, and a scalar in place of spec or spec.set is never overwritten |
| `Charts.EligibleReadsOutsideSpec` | pkg/bootstrap/bootstrap.go:473-553 | kind, API version and inject annotation are read outside spec, so an edit never changes eligibility |
| `IngressRule.GenerateIngressRule` | pkg/controllers/cisnetworkpolicy/controller.go:124-167 | sorted, and as a multiset one block per parseable CIDR of each annotated node |
| `IngressRule.SortedIsUnique` | pkg/controllers/cisnetworkpolicy/controller.go:161-164 | any correct sort gives the same list |
| `IngressRule.RuleIsCanonical` | pkg/controllers/cisnetworkpolicy/controller.go:132-164 | nodes and CIDRs in another order give the identical rule |
| `IngressRule.RuleHas` | pkg/controllers/cisnetworkpolicy/controller.go:132-158 | a block is in the rule exactly if it is that of a CIDR of an annotated node, with /32 or /128 |
| `IngressRule.RuleLength` | pkg/controllers/cisnetworkpolicy/controller.go:132-158 | one block for each such CIDR, none dropped or doubled |
| `IngressRule.LeqIff` | pkg/controllers/cisnetworkpolicy/controller.go:162-164 | the order of the rule is the lexicographic one |
| `ControlPlaneConfig.ParseAssignments` | pkg/podtemplate/config.go:125-133 | an error exactly when some comma segment is unacceptable, else every segment entered in turn |
| `ControlPlaneConfig.SegmentsJoin` | pkg/podtemplate/config.go:125-126 | the segments are what lies between the commas of all values, in order, nothing lost |
| `ControlPlaneConfig.LastSegmentWins` | pkg/podtemplate/config.go:126-132 | the table holds the last segment of each name and keeps the rest |
| `ControlPlaneConfig.TableHolds` | pkg/podtemplate/config.go:145-154 | requests and limits do not affect each other; last segment, else default |
| `ControlPlaneConfig.ParseControlPlaneResources` | pkg/podtemplate/config.go:51-157 | an error exactly when a segment lacks "="; else every field as configured, in any map order |
| `ControlPlaneConfig.RequestsAreRequests` | pkg/podtemplate/config.go:125-153 | a request is the last segment of the component's name among the requests, else its default |
| `ControlPlaneConfig.LimitsAreLimits` | pkg/podtemplate/config.go:135-153 | a limit is the last such segment among the limits, else empty |
| `ControlPlaneConfig.ComponentDefaults` | pkg/podtemplate/config.go:97-121 | component names and default requests, one by one |
| `ControlPlaneConfig.NoFieldMissing` | pkg/podtemplate/config.go:56-93 | every component and resource has its field |
| `ControlPlaneConfig.ReadCountIff` | pkg/podtemplate/config.go:319-322 | which values are accepted as counts and what they mean |
| `ControlPlaneConfig.SettingNames` | pkg/podtemplate/config.go:327-331 | the names of the probe settings, one by one |
| `ControlPlaneConfig.SettingDefaults` | pkg/podtemplate/config.go:286-309 | the default probe settings, one by one |
| `ControlPlaneConfig.ReadCountOfDecimal` | pkg/podtemplate/config.go:319-322 | exactly the counts below 2^31 are accepted as printed |
| `ControlPlaneConfig.ParseControlPlaneProbeConfs` | pkg/podtemplate/config.go:159-341 | an error exactly when a segment lacks "=" or its value is no count; else every setting as configured |
| `PodVolumes.Pod.AddVolumes` | pkg/podtemplate/podtemplate.go:164-201 | one volume and one mount per source, named by kind and index |
| `PodVolumes.Pod.AddExtraMounts` | pkg/podtemplate/podtemplate.go:203-264 | the valid extra mounts, each under its index in the whole list |
| `PodVolumes.Pod.AddAll` | pkg/podtemplate/podtemplate.go:154-158 | volume names are pairwise distinct and the i-th mount mounts the i-th volume |
| `PodVolumes.PlainVolumes` | pkg/podtemplate/podtemplate.go:171-199 | name, host type, path and mode of sockets, directories and files |
| `PodVolumes.ExtraMountParts` | pkg/podtemplate/podtemplate.go:205-263 | which extra mounts are valid by their parts, and the volume and mount each yields |
| `PodVolumes.AllEntriesHave` | pkg/podtemplate/podtemplate.go:154-158 | no source and no valid extra mount is left out and nothing else entered |
| `PodVolumes.NamesAreDistinct` | pkg/podtemplate/podtemplate.go:184-185 | distinct slots have distinct names over all four lists |
| `Text.SplitJoin` | pkg/podtemplate/podtemplate.go:206 | splitting loses nothing and the parts are free of the separator |
| `Text.JoinSplit` | pkg/podtemplate/podtemplate.go:206 | splitting joined parts that are free of the separator gives the parts back |

## Left out

- ServiceAccounts.Server.RestrictServiceAccount: asks for at least one outer and one inner step (the source has 10 and 4); with none, the retry helper would return nil without a call.
- NamespacePolicies.Server.SetPolicies: asks for at least one retry step (the source has 4); a namespace read never answers with a conflict, and an update that is stored while its answer is lost is not modelled; the call then ends with an error.
- ManifestDir.ManifestsAreWhole: rename is one atomic step and temporary files live outside the manifest directory by their path; file modes are not modelled.
- Staging.CrashSafeIff: file operations of one process only; a failing symlink rewrite and two concurrent stages are not modelled.
- PodSync.CheckManifestDeployed: `PodSandboxChanged` is not part of this model; only its contract is.
- NamespacePolicyQuiet.FirstStart: the other namespaces get the default call only; they are worlds of their own and not modelled together.
- Charts.RewriteChart: YAML decoding and export, and the truncating write of the file, are not part of this model.
- IngressRule.GenerateIngressRule: strings are compared by character; printed addresses are ASCII.
- `reconcileFlannelHostNetworkPolicy` of the network policy controller: the rule it stores is modelled, its get/create/update round is not; unlike the service account loop it reads inside the retried function, and it takes the first ingress rule of the stored policy without looking whether there is one.
- `unregister` and the startup hooks: they repeat the modelled calls over lists.
- `startContainerd`, the kubelet and container runtime subprocesses: process supervision.
- `ReadFiles`, probes, environment variables and resource quantities of pods: fields copied one by one into the pod, with no loop or state behind them.
- Readiness of the apiserver channel: it is an environment step, since it also closes when its context is cancelled.
- Real time: timeouts and backoff durations; only step counts and cancellation are kept.
- `pkg/windows`, `pkg/executor/pebinary`, `pkg/images`, `pkg/logging`, `pkg/cli`, `pkg/auth`, cluster roles and pod security: foreign calls, thin wrappers and constant tables.
