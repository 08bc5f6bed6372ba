# A verified model of the data science pipelines operator

The operator reconciles DataSciencePipelinesApplication (DSPA) objects: it resolves parameters, deploys
MariaDB, object storage and the pipeline components, validates the managed pipelines that a DSPA lists
against a manifest inside a container image, reports conditions and metrics, and cleans up behind a
finalizer. This project models the parts of it that hold state, loop, or follow a protocol, and proves what
they are for. `dafny verify dfyconfig.toml` checks everything.

Code that works step by step is modelled as methods and classes in the same shape, with the same branches
and early returns, and each method is tied to a specification function or predicate. What the code promises
over many calls is then proved about those specifications, by induction over runs.

| module | what it is about |
|---|---|
| `Text`, `Paths`, `Prelude` | string and path operations that the operator takes from the Go library |
| `LayerScan`, `OverlayFs` | the newest-to-oldest scan of image layers; the overlay file system they stand for, and when the two agree |
| `Manifest` | parsing the manifest, checking names, classifying every failure as blocking or retried |
| `DigestCache` | the mutex-guarded cache per image digest, with its defensive copies as heap objects |
| `EnvVars` | the normalised list of RELATED_IMAGE_* variables |
| `MlflowCache` | the endpoint cache, once as a method and once as a machine of concurrent callers |
| `Lifecycle` | many DSPAs reconciling, being edited and being deleted over one failing API server: the machine and what every run keeps |
| `StepTable` | which of the machine's actions change what, from any state |
| `BindingNames`, `SeriesRuns`, `WebhookRuns` | what those runs mean for the unowned role bindings, the metric series and the shared webhook |
| `Finalization` | the cleanup code itself, and that it ends as some run of the machine does |
| `Conditions`, `StatusHistory` | the status object, its aggregation, and transition times over whole histories |
| `ReconcilePass`, `PassProperties`, `BlockedRuns` | one reconcile from start to result; when Ready is earned, when a retry is due, what blocked reconciles keep |
| `ConditionTable` | what every reconcile reports and returns, condition by condition, read off what it meets |
| `Metrics`, `VerdictMetric` | the gauge registry over whole histories, and what a reconcile publishes |
| `ConfigHash`, `SampleConfig` | the text that the rollout hash is made from, and the pipeline list that is part of it |
| `InitResources`, `Database`, `DatabaseRuns` | defaulting on shared objects, connection parameters, the deploy decision and its write-back over any run |
| `ConnectionTable` | which field of a DSPA gives which part of the connection, and what one reconcile leaves behind |

How concurrency is modelled: a state, a total function `Do(state, action)`, and runs that are arbitrary
sequences of actions, so every interleaving is covered. A call to the API server may succeed, fail, or fail
after it took effect. An atomic step is one API call or one critical section.

## What the proofs found

For each there is a lemma that gives the input or the run, named first, and one that says exactly when it
happens, named second.

* A whiteout of a directory above the manifest's directory is not recognised, so the scan returns content
  that the image no longer has. Nor is a whiteout or a file whose name begins with "./", as in the examples of
  the OCI changeset document, because entry names are compared as they are written. A layer that touches the
  file by such entries alone is `Overlooked`, and the scan goes on to the layers below it
  (`OverlayFs.AncestorWhiteoutIsMissed`, `OverlayFs.DottedWhiteoutIsMissed`, `OverlayFs.DottedFileIsMissed`;
  `OverlayFs.ScanRefinesOverlay`).
* A manifest that is a link in the image is read as an empty file: the scan sees the entry but not what it
  stands for, and the layer is `Distorted` (`OverlayFs.LinkReadsEmpty`; `OverlayFs.ScanRefinesOverlay`).
* The webhook can outlive every DSPA: two that are finalized together each see the other and both skip the
  cleanup, and one that is deleted before it got its finalizer has the same effect
  (`WebhookRuns.ConcurrentFinalizersOrphanWebhook`, `WebhookRuns.UnfinalizedDspaOrphansWebhook`;
  `WebhookRuns.NeverOrphanedExactlyWhen`).
* A kubernetes-store DSPA that appears between the check and the deletions loses the webhook
  (`WebhookRuns.LateDspaLosesWebhook`; `WebhookRuns.NeededIsLostExactlyWhen`, with
  `WebhookRuns.ClearExactlyWhenCalm` for the runs in which that can come about).
* The name of the unowned role binding joins namespace and name with a dash, so different DSPAs can share it
  (`BindingNames.ValidNamesCollide`; `BindingNames.NameProtectedExactlyWhenUnique`).
* Conditions are published on every way out of a reconcile, also before the finalizer is stored, so the series
  of a DSPA deleted at that point stay: one of an unsupported version, which never gets the finalizer, or a
  supported one whose finalizer update failed (`SeriesRuns.SeriesOutliveUnfinalized`; `SeriesRuns.StrayExactlyWhen`).
* A DSPA that is edited to an unsupported version after its finalizer was stored is never released
  (`Lifecycle.EditedDspaIsStuck`; `Lifecycle.ReleasableExactlyWhenSupported`).
* A readiness check that fails leaves a blank condition, which does not count as failing, so Ready can be
  True without it; the CRD schema refuses such a status, the metrics show it
  (`PassProperties.ReadyWithoutApiServer`; `PassProperties.HollowReadyExactly`).
* The metrics map is keyed by condition, so two blank conditions share an entry and the earlier gauge keeps
  its old reading (`VerdictMetric.TwoUnreadMask` with `Metrics.MaskedGaugeKeepsReading`;
  `Metrics.UnwrittenExactlyWhenMasked`).
* With a requeue time that is not positive, waiting for the webhook deployment or, after a transient fetch
  failure, for the manifest is never retried (`PassProperties.WaitsAreForgotten`;
  `PassProperties.RetryIsLostExactlyWhen`).
* A slow caller can move an MLflow cache entry's expiry back
  (`MlflowCache.SlowWriterMovesExpiryBack`; `MlflowCache.ExpiryFallsExactlyWhen`).
* A platform version that contains the beginning of a JSON object can be mistaken for another input of the hash
  (`ConfigHash.VersionLikePlugins`; `ConfigHash.DecodesExactlyWhen`, `ConfigHash.ConfusableExactlyWhen`).
* While the database secret does not exist, each reconcile makes up another password; where the operator does
  not store one itself this never ends
  (`DatabaseRuns.PasswordsKeepChanging`; `DatabaseRuns.ConnectionSettledExactlyWhen`).

## Assumptions

* Reads of the API server are linearizable; an update is refused if the object has changed since it was read;
  there is at most one reconcile per DSPA at a time; nobody but the operator removes finalizers. Namespaces are
  RFC 1123 labels and DSPA names RFC 1123 subdomains where a lemma speaks of accepted names.
* A digest determines the content of an image. Clocks of the concurrent caches only move forward where a
  lemma says so.
* A DSPA has a database section, which the CRD's default provides; the code dereferences it before it tests it.
* The secret template stores the password it is given (`config/internal/mariadb/generated-secret/secret.yaml.tmpl`).
* `encoding/json` writes objects with balanced braces outside strings, escapes quotes inside strings, and puts
  the keys of structs in declaration order and those of maps in sorted order. The managed-pipelines image and
  the MLflow endpoint are not empty once parameters are extracted, so those objects open with these keys.
* When several keys of a Go map literal are equal, the last one stands.

## Model

| member | source | states |
|---|---|---|
| `LayerScan.ExtractFileFromTar` | controllers/managed_pipelines_fetcher.go:269-300 | one layer: any unreadable or oversized target entry, or a broken stream, is a read error; else the last target entry wins over a whiteout wherever either stands; else whiteout; else not found |
| `LayerScan.ExtractManifestFromImage` | controllers/managed_pipelines_fetcher.go:132-164 | the newest-first loop returns what the newest layer that is not silent decides, and "missing" if all are silent |
| `LayerScan.ScanFollowsDecidingLayer` | controllers/managed_pipelines_fetcher.go:138-163 | exactly one layer, the newest that says anything, fixes the result, its faults included |
| `LayerScan.FaultsAreNeverMasked` | controllers/managed_pipelines_fetcher.go:138-161 | the scan fails transiently if and only if the deciding layer is the faulty one, and never returns more than 1 MiB |
| `LayerScan.LowerLayersAreIrrelevant` | controllers/managed_pipelines_fetcher.go:128-131 | layers below the deciding one can be replaced or broken without changing the result |
| `LayerScan.LookByEntries` | controllers/managed_pipelines_fetcher.go:269-300 | a layer that can be read is silent if and only if no entry has the name or is a marker, hides the file if and only if it has markers and no entry of the name, and otherwise gives the last such entry, cut at 1 MiB |
| `LayerScan.ScanByEntries` | controllers/managed_pipelines_fetcher.go:128-163 | from layers and entries alone: transient if and only if the newest layer that cannot be opened or read, has a bad target entry, or mentions the target is such a bad one; else the content of its last entry of the name; missing if and only if it has none |
| `OverlayFs.WhiteoutNames` | controllers/managed_pipelines_fetcher.go:242-246 | the two entry names that `isWhiteoutFor` accepts, as paths, and that neither is the target itself |
| `OverlayFs.ManifestMarkers` | controllers/managed_pipelines_fetcher.go:60-63 | the two accepted markers of the manifest, spelled out |
| `OverlayFs.RecognisedHides` | controllers/managed_pipelines_fetcher.go:239-246 | every marker that `isWhiteoutFor` accepts does white the target out under the overlay rules |
| `OverlayFs.OverlayAt` | controllers/managed_pipelines_fetcher.go:261-264 | for every stack and path: the overlay built bottom-up, with names cleaned of "." and ".." and empty components, entries taking effect in order and markers applying to lower layers, shows what the newest layer says that says anything |
| `OverlayFs.ScanRefinesOverlay` | controllers/managed_pipelines_fetcher.go:132-164 | for every stack of readable layers of files, directories and resolved links, with m the newest layer that has an entry touching the target: scanning newest-first equals applying all layers bottom-up and looking the file up, if and only if m is not distorted (the last entry replacing the target leaves what stands under its own name; nothing, if only markers are seen) and, if m is overlooked (no touching entry has the target's written name or that of its two markers), it leaves just what the layers below record |
| `OverlayFs.UntouchedStacksAgree` | controllers/managed_pipelines_fetcher.go:163 | if no entry of any readable layer touches the target, scan and overlay agree that it is missing |
| `OverlayFs.ScanIsRecorded` | controllers/managed_pipelines_fetcher.go:138-163 | over readable layers the scan gives what stands under the target's own name in the newest layer with an entry named like the target or one of its two markers, and missing if nothing does |
| `OverlayFs.SeesExactlyWhenRecognised` | controllers/managed_pipelines_fetcher.go:269-300 | the scan sees something in a readable layer if and only if some entry has one of those names |
| `OverlayFs.SaysExactlyWhenTouched` | controllers/managed_pipelines_fetcher.go:261-264 | a layer says something about a path of the overlay if and only if one of its entries replaces it or whites it out |
| `OverlayFs.PlainStacksAgree` | controllers/managed_pipelines_fetcher.go:132-164 | scan and overlay agree whenever what touches the target in that one newest layer is a file under the target's own spelling or a marker that `isWhiteoutFor` accepts, whatever lies below |
| `OverlayFs.ManifestPathIsValid` | controllers/managed_pipelines_fetcher.go:60 | the path the operator looks for is one that the refinement covers |
| `OverlayFs.AncestorWhiteoutIsMissed` | controllers/managed_pipelines_fetcher.go:242-246 | for every target: a whiteout of its top directory removes the file from the overlay, the scan still returns it, and the layer is an overlooked one |
| `OverlayFs.DottedWhiteoutIsMissed` | controllers/managed_pipelines_fetcher.go:242-246 | for every target: a whiteout of the file itself whose name starts with "./" removes it from the overlay, the scan still returns it, and the layer is an overlooked one |
| `OverlayFs.DottedFileIsMissed` | controllers/managed_pipelines_fetcher.go:285-291 | for every target: the file under a name that starts with "./" is in the overlay, the scan reports it missing, and the layer is an overlooked one |
| `OverlayFs.LinkReadsEmpty` | controllers/managed_pipelines_fetcher.go:285-291 | for every target: a link to a file is read as an empty file, and the layer is distorted if and only if the file is not empty |
| `Manifest.ParseManagedPipelinesManifest` | controllers/managed_pipelines_validation.go:43-61 | fails exactly on empty or undecodable content; else the names are the non-empty trimmed names of the entries |
| `Manifest.FlagsAcceptNames` | controllers/managed_pipelines_validation.go:53-60 | a name is accepted if and only if some entry has it after trimming and it is not empty |
| `Manifest.ValidateManagedPipelineNames` | controllers/managed_pipelines_validation.go:65-84 | the reported names are exactly the unaccepted names of the CR |
| `Manifest.MissingNothing` | controllers/managed_pipelines_validation.go:70-83 | nothing is reported if and only if every name of the CR is accepted |
| `Manifest.MissingKeepsOrder` | controllers/managed_pipelines_validation.go:70-75 | reported names stand in CR order, duplicates included |
| `Manifest.IsRegistryAllowed` | controllers/managed_pipelines_fetcher.go:90-97 | allowed if and only if some listed registry equals it ignoring case |
| `Text.EqualFoldExactly` | controllers/managed_pipelines_fetcher.go:90-97 | two texts are equal ignoring case if and only if they agree in each place up to the case of a letter |
| `Manifest.ResolveImageDigest` | controllers/managed_pipelines_fetcher.go:102-126 | a bad reference and a registry outside a non-empty list are permanent; a failing pull or digest is transient |
| `Manifest.ResolvesExactlyWhen` | controllers/managed_pipelines_fetcher.go:102-126 | an image is resolved if and only if the reference parses, the list is empty or spells its registry in any case, and pull and digest succeed |
| `Manifest.ExtractAndParse` | controllers/managed_pipelines_fetcher.go:215-223 | layer scan and parsing in sequence, with an unparsable manifest permanent |
| `Manifest.BlockedExactlyWhenMisconfigured` | controllers/dspipeline_controller.go:598-618 | deployment is blocked if and only if the reference is bad, a non-empty list lacks the registry, or the image's layers are known and the newest one that matters can be read and holds no manifest, an empty or undecodable one, or one without some listed name |
| `Manifest.RetriedExactlyWhenTransient` | controllers/dspipeline_controller.go:599-608 | a retry is requested, and deployment goes on, if and only if the reference is usable and the pull, the digest or the layer list failed or the newest layer that matters is faulty |
| `Manifest.FindingExactly` | controllers/dspipeline_controller.go:588-618 | which of the four conditions validation reports, from the list and the fetch |
| `DigestCache.OCIManifestFetcher.GetCached` | controllers/managed_pipelines_fetcher.go:166-178 | returns a fresh copy of an entry not older than the TTL, else nothing, and drops an expired entry |
| `DigestCache.OCIManifestFetcher.PruneExpiredLocked` | controllers/managed_pipelines_fetcher.go:182-188 | deletes exactly the expired entries while ranging over the map |
| `DigestCache.OCIManifestFetcher.PutCache` | controllers/managed_pipelines_fetcher.go:190-196 | afterwards exactly the live entries and the new one are there, and the stored map is not the caller's |
| `DigestCache.OCIManifestFetcher.FetchPipelineNames` | controllers/managed_pipelines_fetcher.go:202-227 | result and new contents are those of the fetch-through specification, and the returned map is fresh |
| `DigestCache.OCIManifestFetcher.ClientMutation` | controllers/managed_pipelines_fetcher.go:198-201 | writing to any map the cache does not own, handed out or passed in, leaves the contents alone |
| `DigestCache.CopyStringBoolMap` | controllers/managed_pipelines_fetcher.go:229-235 | a fresh map with the same entries |
| `DigestCache.FetchRefinesUncached` | controllers/managed_pipelines_fetcher.go:202-227 | with digests determining content, a fetch through a truthful cache gives what an uncached fetch gives, hit or miss |
| `DigestCache.HitsAgreeWithUncachedFetch` | controllers/managed_pipelines_fetcher.go:202-227 | over every interleaving of lookups and stores at any clock readings, every hit is what extracting and parsing that digest gives |
| `DigestCache.TtlIsExact` | controllers/managed_pipelines_fetcher.go:173-178 | an entry is a hit up to and including the TTL and never after; storing loses no other live entry and keeps no expired one |
| `DigestCache.StoredIsFoundForTheTtl` | controllers/managed_pipelines_fetcher.go:166-196 | what is stored at one clock reading is found at another if and only if that is at most ten minutes later |
| `DigestCache.LookupDropsOnlyExpired` | controllers/managed_pipelines_fetcher.go:173-176 | a lookup removes its own entry if that is older than ten minutes, and changes nothing else |
| `DigestCache.PutDropsOnlyExpired` | controllers/managed_pipelines_fetcher.go:182-196 | a store removes every other entry older than ten minutes and keeps the rest |
| `DigestCache.HitsAreFresh` | controllers/managed_pipelines_fetcher.go:166-196 | over every interleaving, a hit at `now` has a successful store of that digest with the same names earlier in the run, at most ten minutes before |
| `DigestCache.FetchThenHit` | controllers/managed_pipelines_fetcher.go:202-227 | a fetch that misses and succeeds makes the next fetch of that digest, within ten minutes of the store, give the same names, whatever the layers hold then |
| `DigestCache.MissThenStoreThenHit` | controllers/managed_pipelines_fetcher.go:166-196 | from any state of the interleavings, a caller that misses and stores a successful read makes the next lookup a hit if and only if ten minutes have not passed |
| `DigestCache.FreshEntriesStay` | controllers/managed_pipelines_fetcher.go:166-196 | no step of any caller removes an entry at most ten minutes old; only a store of its digest replaces it |
| `EnvVars.IsValidEnvVarName` | controllers/managed_pipeline_image_env.go:69-77 | true if and only if the name is non-empty and all of [A-Z0-9_] |
| `Text.TrimSpaceTrims` | controllers/managed_pipeline_image_env.go:45-52 | a trimmed text has no white space at either end, and only white space was cut off |
| `Text.LessExactly` | controllers/managed_pipeline_image_env.go:61-63 | one text comes before another if and only if at the first difference it has ended or has the smaller character |
| `EnvVars.ManagedPipelineImageEnvFromEnviron` | controllers/managed_pipeline_image_env.go:38-65 | an error if and only if some prefixed key is invalid; else the list is strictly ascending and holds exactly the keys with a non-empty trimmed value, each with its last such value |
| `EnvVars.RepresentationIsUnique` | controllers/managed_pipeline_image_env.go:57-64 | only one list has those properties, so no map iteration order can show in it |
| `EnvVars.ParseExactly` | controllers/managed_pipeline_image_env.go:40-46 | an entry sets a variable if and only if it spells KEY=VALUE, cut at the first "=", with white space trimmed around both and the key beginning with RELATED_IMAGE_ |
| `EnvVars.RefusedExactly` | controllers/managed_pipeline_image_env.go:47-49 | an entry is refused if and only if its key is the bare prefix or has a character that no variable name has |
| `EnvVars.ListedExactly` | controllers/managed_pipeline_image_env.go:38-65 | the list holds exactly the variables that some entry gives a non-empty value, each with the last it is given, in ascending order of characters |
| `MlflowCache.EndpointCache.RemoveExpiredMLflowCacheLocked` | controllers/dspipeline_controller.go:90-96 | deletes exactly the entries expired at the given time |
| `MlflowCache.EndpointCache.RetrieveMLflowEndpointCached` | controllers/dspipeline_controller.go:118-159 | one caller alone: hit, or lookup and store, or error with nothing stored |
| `MlflowCache.EveryRunKeepsInv` | controllers/dspipeline_controller.go:118-159 | every interleaving of callers, step by step, keeps each entry backed by a successful lookup younger than its lifetime |
| `MlflowCache.HitsAreRecent` | controllers/dspipeline_controller.go:127-129 | in every run, a hit at `now` returns a valid endpoint that a successful lookup read later than `now - ttl`, with ttl the configured one if positive and 45 seconds otherwise |
| `MlflowCache.LookupExactly` | controllers/dspipeline_controller.go:98-116 | a lookup gives an endpoint if and only if the namespace is given and the resource has that address, and it is valid |
| `MlflowCache.LiveIsServed` | controllers/dspipeline_controller.go:124-129 | an undisturbed caller is answered from the cache if and only if there is an entry that has not expired |
| `MlflowCache.StoredIsServedForTheTtl` | controllers/dspipeline_controller.go:118-159 | an undisturbed caller that finds nothing and looks up an endpoint makes the next caller's read a hit if and only if less than the time to live has passed: the configured one if positive, else 45 seconds |
| `MlflowCache.StoreDropsOnlyExpired` | controllers/dspipeline_controller.go:90-96 | a store removes every expired entry and keeps the live ones of other namespaces |
| `MlflowCache.PurgeDropsOnlyExpired` | controllers/dspipeline_controller.go:131-136 | a purge removes only its own namespace's entry, and only if that has expired |
| `MlflowCache.LiveEntriesSurvive` | controllers/dspipeline_controller.go:131-136 | in every run, no step removes an entry that has not expired in real time, whatever stale time its caller captured |
| `MlflowCache.ErrorsAreNotCached` | controllers/dspipeline_controller.go:142-145 | however a run goes on, a caller whose lookup failed comes to write only after entering anew and looking up successfully, and every cached endpoint of every run was read successfully for its namespace |
| `MlflowCache.ExpiryFallsExactlyWhen` | controllers/dspipeline_controller.go:147-156 | from any state, an entry's expiry falls exactly when a caller for its namespace writes whose captured time plus TTL is before the entry's expiry |
| `MlflowCache.ExpiryFallsOnlyByOvertaken` | controllers/dspipeline_controller.go:118-159 | over all runs, expiry falls only by a writer that entered before the writer of the entry did |
| `MlflowCache.SlowWriterMovesExpiryBack` | controllers/dspipeline_controller.go:147-156 | for every delay, a run in which a slow caller moves an entry's expiry back by that much |
| `Lifecycle.EveryRunKeepsInv` | controllers/dspipeline_controller.go:369-399 | over every interleaving of reconciles, user edits, failing calls and crashes: versions identify contents, finalizers hold, bindings are protected, series of closing DSPAs stay gone |
| `Lifecycle.BindingsNeverLeak` | controllers/common.go:26-49 | in every run, the unowned role binding of a DSPA exists only while that DSPA exists with the finalizer |
| `StepTable.BindingsExactly` | controllers/common.go:26-49 | from any state, a role binding is stored only by a live reconcile of the DSPA it names and deleted only by that name's finalization |
| `StepTable.WebhookExactly` | controllers/webhook.go:56-124 | from any state, a webhook resource is there after an action if and only if a worker just installed it, or it was there and no worker just deleted it in its place of the cleanup order |
| `StepTable.SeriesExactly` | controllers/dspipeline_controller.go:326-376 | from any state, series come only with the end of a reconcile of a DSPA not being deleted, and go only with its finalization or a restart |
| `StepTable.DspasExactly` | controllers/dspipeline_controller.go:366-399 | from any state, what each action makes of each stored DSPA: user actions, the finalizer, write-backs and the release, each update only of a current copy |
| `StepTable.WorkersExactly` | controllers/dspipeline_controller.go:304-320 | from any state, when a reconcile of a DSPA is under way after an action; it starts on the stored object |
| `BindingNames.BindingNamesCollide` | config/internal/common/no-owner/clusterrolebinding.yaml.tmpl:1-4 | two DSPAs share a binding name if and only if one's namespace and the other's name overlap across a dash |
| `BindingNames.NameProtectedExactlyWhenUnique` | config/internal/common/no-owner/clusterrolebinding.yaml.tmpl:1-4 | for a namespace and name that the API server accepts: the binding name is protected in every run with accepted names if and only if they cannot be cut at another dash into an accepted namespace and name |
| `BindingNames.UniqueExactlyWhen` | config/internal/common/no-owner/clusterrolebinding.yaml.tmpl:1-4 | another accepted DSPA has the same binding name if and only if this one's namespace or name can be cut so |
| `BindingNames.ValidNamesCollide` | config/internal/common/no-owner/clusterrolebinding.yaml.tmpl:1-4 | two accepted DSPAs that share a binding name |
| `SeriesRuns.NoSeriesAfterCleanup` | controllers/dspipeline_controller.go:1021-1025 | in every run, a DSPA whose cleanup has begun has no metric series and none is republished until its name is reused |
| `SeriesRuns.StrayExactlyWhen` | controllers/dspipeline_controller.go:326-376 | in every run, series are left without DSPA and worker by exactly two steps: deleting a DSPA that has series but no finalizer and no reconcile, and ending a reconcile of a DSPA deleted meanwhile |
| `SeriesRuns.FinalizedLeavesNoSeries` | controllers/dspipeline_controller.go:369-399 | in every run in which a DSPA is deleted only with its finalizer stored, its series exist only while it does |
| `SeriesRuns.SeriesOutliveUnfinalized` | controllers/dspipeline_controller.go:326-376 | for a DSPA of any version: one reconcile that ends before the finalizer is stored, then deletion, leaves its series behind |
| `SeriesRuns.StraySeriesStay` | controllers/dspipeline_controller.go:346-358 | whatever runs on from there, series left behind end only with a restart or a new DSPA of that name |
| `WebhookRuns.WebhookNeverOrphaned` | controllers/webhook.go:56-124 | in every run in which no two finalizations overlap and DSPAs are deleted only with their finalizer stored, whatever live reconciles run beside, any of the seven resources exists only while some DSPA does |
| `WebhookRuns.OrphanedByExactly` | controllers/webhook.go:56-74 | from every reachable state, the webhook is left without any DSPA by exactly two steps: the last DSPA is deleted without finalizer, or released, while some of it exists |
| `WebhookRuns.NeverOrphanedExactlyWhen` | controllers/webhook.go:56-74 | a run never leaves the webhook without a DSPA if and only if it has none of those steps |
| `WebhookRuns.NoStoreNoWebhook` | controllers/dspipeline_controller.go:457-474 | in every run in which no user gives any DSPA the kubernetes store, none of the seven resources ever exists |
| `WebhookRuns.WebhookGrowsOnlyForStore` | controllers/dspipeline_controller.go:457-474 | in every run, a step that adds a webhook resource is one of a worker whose loaded DSPA uses the kubernetes store |
| `WebhookRuns.UndisturbedReconcileInstalls` | controllers/dspipeline_controller.go:377-474 | after any run, an undisturbed reconcile of a live DSPA of a supported version stores its finalizer and its binding and publishes its series; with the kubernetes store it ends with all seven resources, and otherwise leaves them as they were |
| `Lifecycle.ReachCleaned` | controllers/webhook.go:76-124 | from any point of the cleanup order, the remaining get-then-delete steps leave none of the seven resources |
| `Lifecycle.UndisturbedRetryFinishes` | controllers/dspipeline_controller.go:377-398 | after any run, however cleanup failed before, one undisturbed retry removes the DSPA, its binding and series, and the webhook unless another kubernetes-store DSPA exists |
| `Lifecycle.ReleasableExactlyWhenSupported` | controllers/dspipeline_controller.go:346-398 | after any run, a DSPA that is being deleted can be released without being edited if and only if its version is supported |
| `WebhookRuns.NeededWebhookIsKept` | controllers/dspipeline_controller.go:659-675 | no step of a run deletes a webhook resource while another kubernetes-store DSPA exists, if no user gives another DSPA that store while a worker is in its removal phase |
| `WebhookRuns.ClearExactlyWhenCalm` | controllers/webhook.go:58-70 | at no point of a run is a worker in its removal phase while another kubernetes-store DSPA exists, if and only if no user gives another DSPA that store during such a phase |
| `WebhookRuns.ClearEndsExactlyWhen` | controllers/webhook.go:58-70 | from a state where that holds, exactly those user actions end it |
| `WebhookRuns.NeededIsLostExactlyWhen` | controllers/webhook.go:58-70 | once another kubernetes-store DSPA exists during a removal phase, the worker can go on to delete a needed resource if and only if one that it has not yet passed is still there |
| `WebhookRuns.ConcurrentFinalizersOrphanWebhook` | controllers/webhook.go:56-74 | two DSPAs finalizing together each see the other, and the webhook outlives both |
| `WebhookRuns.UnfinalizedDspaOrphansWebhook` | controllers/webhook.go:56-74 | a DSPA deleted before its finalizer is stored can leave the webhook behind |
| `WebhookRuns.LateDspaLosesWebhook` | controllers/webhook.go:58-70 | a kubernetes-store DSPA created between check and deletion loses the webhook |
| `Finalization.Cluster.DeleteResourceIfItExists` | controllers/dspipeline_controller.go:254-265 | succeeds if and only if the resource could be read and is absent or was deleted; what a failure may have changed |
| `Finalization.Cluster.CleanupWebhookResources` | controllers/webhook.go:76-124 | succeeds if and only if every resource is removable, and then none is left; else it stopped at one resource with all before it gone and all after it untouched |
| `Finalization.Cluster.CheckAvailableKubernetesDSPAs` | controllers/dspipeline_controller.go:659-675 | true if and only if another DSPA, by name and namespace, uses the kubernetes store |
| `Finalization.Cluster.CleanUpWebhookIfUnused` | controllers/webhook.go:56-74 | lists first; cleans up only if no other kubernetes-store DSPA exists; every failure is reported |
| `Finalization.Cluster.CleanUpCommon` | controllers/common.go:43-49 | deletes the DSPA's binding and no other |
| `Finalization.Cluster.Finalize` | controllers/dspipeline_controller.go:377-398 | ends at the first call that fails, with exactly the effects up to there; the DSPA goes only after binding and webhook cleanup succeeded, so a partial failure keeps the finalizer |
| `Finalization.FinalizedIsRun` | controllers/dspipeline_controller.go:377-398 | every way the cleanup can end, whatever calls fail, is a run of the worker's own steps in the lifecycle machine |
| `Finalization.FinalizeAsRun` | controllers/dspipeline_controller.go:377-398 | the cleanup code, run from where a worker starts to finalize, leaves the cluster as such a run does |
| `Conditions.DspaStatus.constructor` | controllers/dspastatus/dspa_status.go:44-67 | every component starts Unknown and the overall condition unset |
| `Conditions.DspaStatus.SetDatabaseNotReady` | controllers/dspastatus/dspa_status.go:83-90 | replaces the database condition only |
| `Conditions.DspaStatus.SetDatabaseReady` | controllers/dspastatus/dspa_status.go:92-95 | replaces the database condition only |
| `Conditions.DspaStatus.SetObjStoreReady` | controllers/dspastatus/dspa_status.go:97-100 | replaces the object store condition only |
| `Conditions.DspaStatus.SetObjStoreNotReady` | controllers/dspastatus/dspa_status.go:102-110 | replaces the object store condition only |
| `Conditions.DspaStatus.SetWebhookReady` | controllers/dspastatus/dspa_status.go:121-124 | replaces the webhook condition only |
| `Conditions.DspaStatus.SetWebhookNotReady` | controllers/dspastatus/dspa_status.go:112-129 | replaces the webhook condition only; with reason NotApplicable also for the not-applicable setter |
| `Conditions.DspaStatus.SetStatus` | controllers/dspastatus/dspa_status.go:131-168 | replaces the one component condition that is named |
| `Conditions.DspaStatus.SetManagedPipeline` | controllers/dspastatus/dspa_status.go:170-187 | replaces the validation condition only |
| `Conditions.DspaStatus.SetDSPANotReady` | controllers/dspastatus/dspa_status.go:189-201 | overrides the overall condition |
| `Conditions.DspaStatus.GetConditions` | controllers/dspastatus/dspa_status.go:203-275 | nine component conditions and the overall one, which is True if and only if no component blocks unless overridden; transition times carried from equal previous statuses; generations current |
| `Conditions.DspaStatus.RestoreTransitionTimes` | controllers/dspastatus/dspa_status.go:263-272 | the map-building loop and the restoring loop carry the last listed previous condition of each type |
| `Conditions.AllReadyMeansNoneBlocks` | controllers/dspastatus/dspa_status.go:216-223 | all ready means that none of the nine listed conditions blocks |
| `ConditionTable.BlocksExactly` | controllers/dspastatus/dspa_status.go:216-223 | a condition blocks if and only if it is False or Unknown for a reason other than NotApplicable and ManagedPipelinesFetchError |
| `ConditionTable.MessagesJoin` | controllers/dspastatus/dspa_status.go:216-223 | the failure messages of a list are those of its parts, in order |
| `ConditionTable.StoredConditions` | controllers/dspastatus/dspa_status.go:203-275 | the reported list: nine conditions in their order with the carried times and the generation, and an overall one that is True if and only if none of them blocks, unless it was set outright |
| `ConditionTable.PreviousIsLast` | controllers/dspastatus/dspa_status.go:263-272 | the condition whose time is carried on is the last listed one of its type |
| `StatusHistory.FailedWritesDoNotMatter` | controllers/dspipeline_controller.go:686-690 | rejected status writes can be dropped from a history without changing what is stored |
| `StatusHistory.CurrentRunExists` | controllers/dspastatus/dspa_status.go:263-272 | every stored condition belongs to a maximal run of equal statuses with a first update |
| `StatusHistory.TransitionTimeIsRunStart` | controllers/dspastatus/dspa_status.go:263-272 | after any number of updates a condition's transition time is the build time at the first update of its current run, and its generation is current |
| `StatusHistory.TransitionTimesOverHistory` | controllers/dspipeline_controller.go:677-691 | the same over histories with failed writes in between |
| `ReconcilePass.EvaluationBlocksUnless` | controllers/dspipeline_controller.go:696-814 | a readiness check yields a blocking condition unless the deployment serves or could not be evaluated, and a blank one exactly in the latter case |
| `ConditionTable.TrueExactlyWhenServed` | controllers/dspipeline_controller.go:729-735 | a component is True if and only if its deployment is there, not scaled to zero, and available |
| `ConditionTable.CauseGivesReason` | controllers/dspipeline_controller.go:696-814 | which cause gives which reason and message, in their order of precedence |
| `ReconcilePass.ValidateManagedPipelines` | controllers/dspipeline_controller.go:582-619 | proceed, requeue and condition for each outcome of the fetch and of the name check |
| `ReconcilePass.PreservePostValidationConditions` | controllers/dspipeline_controller.go:554-574 | restores the five later component conditions from the stored status where there are any |
| `ReconcilePass.Reconcile` | controllers/dspipeline_controller.go:304-547 | the whole reconcile, made of one method per stretch of the source with its early returns: its status, how far it got and what it returns are those of the pass specification |
| `ConditionTable.DatabaseReport` | controllers/dspipeline_controller.go:346-449 | the database condition of every reconcile, from what it meets |
| `ConditionTable.StorageReport` | controllers/dspipeline_controller.go:346-449 | the object store condition of every reconcile |
| `ConditionTable.WebhookReport` | controllers/dspipeline_controller.go:457-495 | the webhook condition of every reconcile |
| `ConditionTable.ValidationReport` | controllers/dspipeline_controller.go:497-507 | the validation condition of every reconcile |
| `ConditionTable.ComponentReport` | controllers/dspipeline_controller.go:346-547 | the condition of each of the five components in every reconcile, for each way out of it |
| `ConditionTable.ComponentTrueExactlyWhen` | controllers/dspipeline_controller.go:304-547 | a component is True if and only if the reconcile applies it and all before it and its deployment serves, or validation blocks and the stored status has it True |
| `ConditionTable.OverrideReport` | controllers/dspipeline_controller.go:346-429 | Ready is set outright if and only if the version is unsupported or the parameters fail, and to what |
| `ConditionTable.ReturnReport` | controllers/dspipeline_controller.go:304-547 | the result of every reconcile: error, immediate requeue, timed requeue or none, from what it meets |
| `PassProperties.ReadyExactly` | controllers/dspipeline_controller.go:304-547 | Ready is True if and only if every step of the reconcile succeeds, validation proceeds, and each component serves, is disabled, or could not be evaluated |
| `PassProperties.StagesFollowInputs` | controllers/dspipeline_controller.go:346-547 | a reconcile completes if and only if every step succeeds and validation proceeds; it is blocked if and only if everything before validation succeeds and a listed name is not accepted or the fetch failed permanently |
| `PassProperties.HollowReadyExactly` | controllers/dspipeline_controller.go:703-709 | Ready is True without all components being real if and only if every step succeeds, no component is seen failing and some readiness check failed; the schema then rejects the status |
| `PassProperties.ReadyWithoutApiServer` | controllers/dspipeline_controller.go:703-709 | a reconcile that reports Ready although the API server deployment could not be read |
| `PassProperties.StoredReadyIsEarned` | config/crd/bases/datasciencepipelinesapplications.opendatahub.io_datasciencepipelinesapplications.yaml:1095-1155 | a status that the schema accepts and that says Ready means that every step succeeded and every component serves or is disabled |
| `PassProperties.UpdateStatus` | controllers/dspipeline_controller.go:677-691 | refreshes, skips a DSPA being deleted, and stores the aggregated conditions if the write is accepted |
| `PassProperties.NoRetryExactlyWhenSettled` | controllers/dspipeline_controller.go:401-546 | with a positive requeue time a live reconcile asks for no retry if and only if every step succeeds without transient fetch failure, or validation blocks it; and then the status says so |
| `PassProperties.RetriesAreKeptExactlyWhenPositive` | controllers/dspipeline_controller.go:401-546 | every reconcile that is not settled asks for a retry, if and only if the requeue time is positive |
| `PassProperties.RetryIsLostExactlyWhen` | controllers/dspipeline_controller.go:401-546 | a live reconcile that is not settled asks for no retry if and only if the requeue time is not positive and it waits for the webhook deployment, or applied everything with a transient fetch failure |
| `PassProperties.WaitsAreForgotten` | controllers/dspipeline_controller.go:463-546 | without a positive requeue time, a reconcile that waits for the webhook and one that waits for the manifest are not retried |
| `BlockedRuns.BlockedKeepsOne` | controllers/dspipeline_controller.go:474-484 | one blocked reconcile keeps status, reason, message and transition time of each later component |
| `BlockedRuns.BlockedRunsPreserve` | controllers/dspipeline_controller.go:549-574 | so does any number of consecutive reconciles that reach validation and are blocked by it, with Unknown where there was nothing before |
| `Metrics.NormalizeManagedPipelineValidationReason` | controllers/metrics.go:174-181 | a listed reason stands, any other text becomes Other |
| `Metrics.Registry.SetManagedPipelineValidMetricByReason` | controllers/metrics.go:163-172 | the instance's six reason series become one-hot, and no other series changes |
| `Metrics.Registry.PublishOne` | controllers/dspipeline_controller.go:820-832 | one entry of the metrics map goes to the one-hot group or to its own gauge |
| `Metrics.Registry.PublishMetrics` | controllers/dspipeline_controller.go:816-834 | in whatever order the map is ranged over, each entry is shown and nothing else changes |
| `Metrics.Registry.PublishConditions` | controllers/dspipeline_controller.go:327-344 | the end of a live reconcile: the map keyed by condition is built and published |
| `Metrics.Registry.DeleteMetrics` | controllers/metrics.go:154-161 | the instance's listed series are gone and all others unchanged |
| `Metrics.RegistryFollowsHistory` | controllers/dspipeline_controller.go:816-834 | after any sequence of publishes, clean-ups and restarts of any instances, the registry is exactly what each instance's own last relevant events imply |
| `Metrics.ExactlyOneReasonIsHot` | controllers/metrics.go:163-181 | after any history, exactly one reason series of a published instance is 1, for any reason text |
| `Metrics.ReasonSeriesExactly` | controllers/metrics.go:163-181 | after any history, each of the six reason series of a published instance reads 1 if and only if it is the reason last published, or Other for an unlisted one, and 0 otherwise; no other reason series exists |
| `Metrics.GaugesExactly` | controllers/dspipeline_controller.go:326-344 | which conditions have a gauge, and which gauges a clean-up deletes |
| `Metrics.NoSeriesUntilRepublished` | controllers/metrics.go:151-161 | from a clean-up until its next publish, an instance has no series, whatever happens to others |
| `Metrics.GaugeIsTruthfulExactlyWhen` | controllers/dspipeline_controller.go:332-342 | a publish leaves a gauge showing its condition if and only if it writes the gauge or the gauge already read 0 rightly |
| `Metrics.PublishedGaugeReads` | controllers/dspipeline_controller.go:816-834 | after a publish a gauge reads 1 if its condition is True and 0 otherwise, unless its condition and a later one are blank, when it stays |
| `Metrics.UnwrittenExactlyWhenMasked` | controllers/dspipeline_controller.go:332-342 | a gauge is left unwritten if and only if its condition is blank and so is that of a gauge listed after it |
| `Metrics.MaskedGaugeKeepsReading` | controllers/dspipeline_controller.go:332-342 | when two listed conditions are blank, a publish leaves the earlier gauge at whatever it read |
| `VerdictMetric.TwoUnreadMask` | controllers/dspipeline_controller.go:332-342 | a reconcile in which the API server and MLMD deployments cannot be read, and the conditions it reports mask the API server's gauge |
| `VerdictMetric.UnreadIsMasked` | controllers/dspipeline_controller.go:332-342 | for every reconcile that applies everything but could not evaluate two components: the conditions it reports mask the gauge listed first |
| `VerdictMetric.PublishedReasonIsVerdict` | controllers/dspipeline_controller.go:582-619 | for every reconcile, the reason series that becomes 1 is its own verdict if everything before validation succeeds, else Unknown; never Other |
| `VerdictMetric.HotReasonExactly` | controllers/dspipeline_controller.go:582-619 | the text of the reason series that every reconcile makes hot, from the list, the fetch and how far the reconcile got |
| `VerdictMetric.ComponentGaugeExactly` | controllers/dspipeline_controller.go:816-834 | after every reconcile the gauge of an evaluated component reads 1 if and only if the component was applied and serves, or validation blocks and it was True before |
| `ConfigHash.ApiServerParams.SetConfigHash` | controllers/apiserver.go:151-176 | the step-by-step concatenation is the pre-image of the parameters, and its digest is stored |
| `ConfigHash.ObjectsArePrefixFree` | controllers/apiserver.go:153-174 | no JSON object is a proper beginning of another, whatever follows either |
| `ConfigHash.DecodesExactlyWhen` | controllers/apiserver.go:153-174 | decoding the pre-image gives back all five inputs if and only if the platform version does not contain a brace followed by a quote |
| `ConfigHash.AnyChangeIsHashed` | controllers/apiserver.go:175-176 | with such versions two inputs are hashed alike if and only if they are equal |
| `ConfigHash.ConfusableExactlyWhen` | controllers/apiserver.go:153-174 | for arbitrary versions, exactly which inputs share their pre-image with other inputs |
| `ConfigHash.VersionLikePlugins` | controllers/apiserver.go:157-160 | for every plugin configuration: the version that spells it out and the configuration itself cannot be told apart |
| `SampleConfig.GenerateSampleConfig` | controllers/apiserver.go:99-136 | fails exactly without Iris metadata when samples are on, or on the first name repeated ignoring case; else one entry per kept name in order |
| `SampleConfig.NamesAreExact` | controllers/apiserver.go:112-125 | every requested name, and Iris when samples are on, is listed exactly once ignoring case, and nothing else |
| `SampleConfig.EntriesExactly` | controllers/apiserver.go:40-97 | what each entry says: its fields come from the metadata, or without any from the name and its file in the volume; its version is the platform's, and for the sample the version name followed by it |
| `SampleConfig.KeptInOrder` | controllers/apiserver.go:112-125 | requested names are listed in the order in which they were requested |
| `InitResources.ResourceRequirements.DeepCopy` | controllers/dspipeline_params.go:661-669 | a copy that shares no object with the original |
| `InitResources.ManagedPipelinesSpec.EnsureInitResourceDefaults` | controllers/dspipeline_params.go:657-691 | in place: every missing or zero amount is filled, the operator's defaults keep their value and are never shared |
| `InitResources.FillingBoundsAndSettles` | controllers/dspipeline_params.go:655-656 | the result is never unbounded, keeps every non-zero amount of the user, and filling again changes nothing |
| `InitResources.FilledExactly` | controllers/dspipeline_params.go:657-691 | each amount is filled on its own: a given one stands, a missing or zero one is that amount's default on that side |
| `Database.DspaParams.ExtractComponents` | controllers/dspipeline_params.go:1098-1112 | copies are defaulted; only the default workflow controller reaches the DSPA object |
| `Database.DspaParams.SetupMariaDB` | controllers/dspipeline_params.go:346-366 | a missing MariaDB gets all defaults, a given one its missing fields |
| `ConnectionTable.GivenMariaDBStands` | controllers/dspipeline_params.go:359-366 | every field the user gave stands, and image, user, database and resources alone are filled in where missing |
| `ConnectionTable.MissingMariaDBIsMadeUp` | controllers/dspipeline_params.go:348-357 | the MariaDB that is made up where none is given |
| `ConnectionTable.WorkflowControllerFills` | controllers/dspipeline_params.go:1098-1112 | the same for the workflow controller |
| `Database.DspaParams.SetupDBParams` | controllers/dspipeline_params.go:313-425 | connection parameters and errors for external and own databases, with generated passwords only for secrets that do not exist and custom parameters taking precedence |
| `ConnectionTable.ConnectExactly` | controllers/dspipeline_params.go:313-425 | a reconcile connects, and with which host, port, user, database, parameters, credentials and password: exactly when the secret could be looked up, custom parameters are valid, and the secret holds a password or one is generated for a missing secret of an own database |
| `Database.ApplyMariaDB` | controllers/database.go:281-286 | templates are applied in order up to the first failure |
| `Database.StoreDefaultDB` | controllers/database.go:287-299 | the defaulted MariaDB, with deploy set, goes into the DSPA and is written back |
| `Database.ReconcileDatabase` | controllers/database.go:251-308 | external first, then deployment with secret, templates and write-back, else nothing; errors return at once |
| `ConnectionTable.AppliesUpToFailure` | controllers/database.go:281-286 | a template is applied if and only if every one before it succeeded and its own call took effect |
| `ConnectionTable.AppliedReport` | controllers/database.go:270-286 | which templates every reconcile leaves applied, from the DSPA and how the calls end |
| `ConnectionTable.WriteBackReport` | controllers/database.go:287-299 | the made-up MariaDB is written back if and only if the DSPA names no database, everything before succeeded and the write took effect; otherwise the stored MariaDB stays |
| `Database.ReconcileOnce` | controllers/dspipeline_controller.go:407-429 | extraction, database step and a possible storage write compose to the reconcile specification |
| `ConnectionTable.SpecReport` | controllers/dspipeline_controller.go:407-429 | the default workflow controller reaches the stored DSPA if and only if a write of it took effect, and nothing else of the DSPA changes but its MariaDB |
| `DatabaseRuns.AtMostOneWriteBack` | controllers/database.go:251-308 | over every run with any failing calls: at most one write-back, only after all of MariaDB was applied, and defaulting, decision and connection parameters the same throughout |
| `DatabaseRuns.WrittenBackDerivesSame` | controllers/database.go:287-299 | the written-back DSPA derives the same parameters and needs no further write-back |
| `DatabaseRuns.ConnectionNeverChanges` | controllers/dspipeline_params.go:276-287 | once the secret exists, every later connection is the same, password included |
| `DatabaseRuns.StoredPasswordIsFinal` | controllers/dspipeline_params.go:276-296 | a reconcile that stores the secret of a DSPA that neither brings its database nor names a secret fixes its password for all later ones |
| `DatabaseRuns.ConnectionSettledExactlyWhen` | controllers/dspipeline_params.go:276-296 | all connections of all runs agree if and only if the secret exists, the database is external, or the custom parameters are refused |
| `DatabaseRuns.PasswordsKeepChanging` | controllers/dspipeline_params.go:276-287 | where the DSPA names a secret that does not exist, or its MariaDB is not deployed, after any run the next connection uses whatever is generated |
| `DatabaseRuns.GivenSecretsAreLeftAlone` | controllers/database.go:266-279 | in every run, no secret changes for a DSPA with an external database, a MariaDB not deployed, or a secret of its own named |
| `DatabaseRuns.PasswordIsStored` | controllers/database.go:266-279 | for every other DSPA, a reconcile that connects and whose secret call takes effect leaves the generated password under the operator's own name, unless that secret exists already, and touches no other secret |
| `DatabaseRuns.SecretsNeverChangeExactlyWhen` | controllers/database.go:266-279 | no run ever changes a secret if and only if the DSPA brings database or secret, the operator's secret exists, or the custom parameters are refused |
| `DatabaseRuns.AppliedOnlyAfterStoring` | controllers/database.go:270-286 | in every run, nothing of a MariaDB with a generated password is applied before that password is stored |
| `DatabaseRuns.FaultFreeReconcileSettles` | controllers/database.go:270-307 | one reconcile without faults settles the database, whatever partial work was there |
| `DatabaseRuns.SettledRunsAreIdle` | controllers/database.go:251-308 | a settled state is a fixpoint of every further run, up to storing the default workflow controller |
| `DatabaseRuns.OwnDatabaseIsLeftAlone` | controllers/database.go:270-304 | a DSPA with an external database, or with MariaDB not deployed, gets no MariaDB, secret or write-back in any run |
| `DatabaseRuns.DeployedExactlyWhen` | controllers/database.go:258-299 | one reconcile without faults deploys MariaDB if and only if the DSPA brings no database of its own |
| `Lifecycle.EditedDspaIsStuck` | controllers/dspipeline_controller.go:346-398 | a run after which a DSPA being deleted cannot be released: its version was edited after the finalizer was stored |

## Left out

* Registry access, MySQL and Minio probes, TLS and certificate setup, credentials: their outcomes are inputs.
* Template rendering and applying manifests: applying is one call on a named resource; what is in it is not modelled.
* Kubernetes caching and informer delays, and the watches that start reconciles: any DSPA may be reconciled at any time.
* `ReconcileStorage`, the persistence agent, scheduled workflow, workflow controller and MLMD reconcilers: steps that succeed or fail.
* The rest of `ExtractParams` (proxy settings, certificates, MLMD, object store, MLflow plugin settings): it succeeds or fails with a message.
* `ensureManagedPipelinesVolumeSizeLimit`, compiled pipeline patches, API server routes: easy members.
* SHA-256: nothing is claimed about collisions; the digest is an arbitrary function of the pre-image.
* JSON: encoding is not modelled beyond the assumption above, decoding the manifest is an arbitrary partial function to names.
* Message texts: conditions carry short stand-ins, and messages from outside are kept as they are. The list of invalid names is modelled by the names, not by the sentence around them.
* Random passwords: any value may be generated; that a generated one is not empty is not used. Base64 is left out on both sides.
* The seven webhook deletions are one loop over a constant in the source's order, where the source writes them out.
* `slices.SortFunc` is an insertion sort by name.
* Setters that take a whole condition are one method with the type as a parameter; a setter reads the clock once and gets it as a parameter.
* Case folding covers ASCII letters only.
* In the overlay a link stands for the content it resolves to, if that is a file; links above the target are not followed, and an entry below a path that is a file does not turn it into a directory.
* Quantities are integers; viper's lookup of operator configuration is a function or a record.
* Reasons of conditions other than the validation condition have no text in `Metrics`; all of them normalise to Other.
* Gauge values are integers 0 and 1.
- WebhookRuns.WebhookNeverOrphaned: holds for runs without overlapping finalizations and without deletion before the finalizer is stored; both needs have a counterexample, and `WebhookRuns.NeverOrphanedExactlyWhen` covers all runs.
- StatusHistory.TransitionTimesOverHistory: is about accepted writes that start from an empty status, with nobody else writing it.
- BlockedRuns.BlockedRunsPreserve: assumes that nobody else writes the status.
- PassProperties.StoredReadyIsEarned: relies on the CRD schema refusing blank conditions, which is modelled as three fields being filled in.
