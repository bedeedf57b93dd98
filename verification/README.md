# Verified models of the desktop shell and its build tools

This project models the parts of the repository whose correctness depends on the order in
which things happen, or on arithmetic and tree laws that span several functions, and
proves properties of them in Dafny. `dafny verify dfyconfig.toml` checks everything.

How the files are organised:

| files | source | style |
|---|---|---|
| `NodeGrants.dfy`, `NodeGrantProtocol.dfy` | `electron/plugin-node-executor.ts` | a class with one method per uninterrupted stretch of a handler; a step function over every interleaving with an event log |
| `ConsentFlow.dfy` | `electron/plugin-node-executor.ts`, `electron/plugin-node-consent-store.ts` | grant protocol and store queues in one run |
| `StoreFormat.dfy`, `StoreQueues.dfy`, `StoreQueueProofs.dfy`, `SyncFolderCache.dfy` | `electron/simple-store.ts`, `electron/plugin-node-consent-store.ts`, `electron/local-file-sync.ts` | two nested promise queues over one file as a step function, compared with sequential folds |
| `PosixPaths.dfy`, `FilePathGuard.dfy`, `SyncPathResolver.dfy` | `electron/file-path-guard.ts`, `electron/sync-path-resolver.ts` | a filesystem with symbolic links, permissions and a link limit; the two walks as loops |
| `IdleMethods.dfy`, `GpuStartupGuard.dfy`, `CloseProtocol.dfy`, `TrayMenu.dfy` | `electron/idle-time-handler.ts`, `electron/gpu-startup-guard.ts`, `electron/main-window.ts`, `electron/indicator.ts` | classes for the handlers, laws over whole runs |
| `Translations.dfy`, `TranslationLaws.dfy` | `tools/add-missing-i18n-variables.js`, `tools/clean-translations.js` | recursive methods with the loops of the scripts, laws between the tools |
| `VersionCodes.dfy`, `Decimals.dfy` | `tools/release-notes.js`, `tools/android-dev-version-code.js` | functions and lemmas |
| `IcnsWriter.dfy` | `tools/generate-mac-icon.js` | writes into an array through a moving offset |
| `ReleaseNoteHeadings.dfy` | `tools/prepare-appstore-release-notes.js` | the backward loop against a forward specification |

Common reading guide. A handler that awaits is cut at its awaits; a run is any sequence of
inputs, and an input that is not possible in the current state changes nothing. Clocks,
dialogs, file errors, renderer messages and child processes are inputs. Random tokens are
drawn fresh. A promise queue starts an entry when its predecessor has settled.

## Where the code and its own comments differ

The model follows the code. These are stated as lemmas, each with the exact condition or
a concrete run:

- The comments of `plugin-node-executor.ts` promise that no grant is minted for a sender
  that navigated. The re-check compares the URL and asks whether the window has *some*
  registration. `DialogMintsIff` says exactly when a dialog mints; a registration that is
  younger than the navigation serves as well: the one the request itself makes after its
  consent read, or that of a second request (`StaleDialogMintExists`). On the ask-once path
  only the URL counts (`AskOnceSeesOnlyTheUrl`).
- A clear that arrives after the consent was looked up does not stop that mint
  (`ClearAfterLookupIsTooLate`), one during the dialog is overtaken by an Allow
  (`AllowAfterClearPersistsAgain`), and denying one of two dialogs of a window can void the
  Allow on the other (`DenyOfOneDialogAffectsTheOther`).
- A read error other than "no such file" counts as an empty store: the next save then drops
  all other keys (`SaveKeepsOtherKeysIff`), a clear reports success without clearing
  (`ClearWithFailedRead`), and the folder cache holds "not configured" for the session
  (`FailedFirstReadIsCached`). What that does to whole runs is stated exactly:
  `NoUpdateIsLostIff`, `ConsentsAlwaysFoldedIff`, `CacheIsCoherentIff`. No failure makes up
  a consent (`SilentMintWasAllowed`).
- `canonicalize` is idempotent unless the system's limit on links stopped it
  (`CanonIdempotentIff`, `CanonNotIdempotentAtLinkLimit`). A child whose name starts with two
  dots counts as outside (`InsideIsStrictPrefix`, `OutsideIff`).
- The comment at `electron/local-file-sync.ts:21-26` protects the private directory; the
  guard refuses roots at or under it, but a root above it is let through, and then paths
  into it are too (`ReachesPrivateIff`).
- The final throw of `resolveSyncPath` is unreachable as its comment says, except when the
  sync root is the filesystem root (`FinalThrowUnreachable`, `FilesystemRootRefusesNewTopLevelFiles`).
- The tray menu cache equals a redraw on every event exactly if the cache left from an
  earlier tray describes the state in which the tray is created (`CacheRefinesRedrawIff`).
- A requested quit whose before-close actions outlast the five-second request ends in the
  tray when minimise-to-tray is on (`LastActionQuitsIff`, `SlowActionsTurnQuitIntoHide`).
- The code of a pre-release holds its number but not its name, and a bare label counts as
  number 1: `CodesFollowPrecedenceIff` says which pairs come out in the wrong order.
  Three-digit minors or patches always collide with another version (`UniqueCodeIff`).
- The filter law of `cleanObject` fails under the empty path, exactly as
  `CleanKeepsValidLeavesIff` says.

## Model

| member | source | states |
|---|---|---|
| NodeGrants.PluginNodeExecutor.constructor | electron/plugin-node-executor.ts:111-122 | a new executor holds no grant and no registration |
| NodeGrants.PluginNodeExecutor.RegisterGrantCleanup | electron/plugin-node-executor.ts:321-358 | the window is registered afterwards, everything else unchanged, also when it already was |
| NodeGrants.PluginNodeExecutor.UnregisterGrantCleanup | electron/plugin-node-executor.ts:360-372 | exactly this window's registration goes |
| NodeGrants.PluginNodeExecutor.Cleanup | electron/plugin-node-executor.ts:327-337 | the deleting loop leaves exactly the grants of other windows and drops the registration |
| NodeGrants.PluginNodeExecutor.DidStartNavigation | electron/plugin-node-executor.ts:338-347 | only a main-frame navigation to another document cleans up |
| NodeGrants.PluginNodeExecutor.ReleaseGrantCleanupIfUnused | electron/plugin-node-executor.ts:374-381 | the registration goes if and only if no grant is bound to the window |
| NodeGrants.PluginNodeExecutor.MintGrant | electron/plugin-node-executor.ts:383-387 | the id now carries the fresh token bound to the window |
| NodeGrants.PluginNodeExecutor.RequestStarts | electron/plugin-node-executor.ts:128-148 | the same window gets its token back; another window's grant is taken over and its registration released if unused |
| NodeGrants.PluginNodeExecutor.ConsentWasRead | electron/plugin-node-executor.ts:164-181 | stored consent mints for a valid sender and gives up for another; without consent the window is registered for the dialog |
| NodeGrants.PluginNodeExecutor.DialogAnswered | electron/plugin-node-executor.ts:183-213 | a token exactly for Allow with a valid, still registered sender; otherwise the id loses its grant and an unused registration goes |
| NodeGrants.PluginNodeExecutor.ClearConsent | electron/plugin-node-executor.ts:245-256 | a clear drops the live grant of a safe id from any window |
| NodeGrants.PluginNodeExecutor.RevokeGrant | electron/plugin-node-executor.ts:269-283 | a revoke drops the grant only for the window it is bound to |
| NodeGrants.PluginNodeExecutor.IsAuthorized | electron/plugin-node-executor.ts:299-314 | execution goes on exactly for the stored pair of token and window |
| NodeGrantProtocol.InvStep | electron/plugin-node-executor.ts:125-387 | every input keeps: grants have live, registered windows and distinct tokens; registrations outlive a window only during its dialogs |
| NodeGrantProtocol.EveryGrantHasALiveRegisteredWindow | electron/plugin-node-executor.ts:117-235 | in every reachable state each grant names a live, registered window and a token of its own |
| NodeGrantProtocol.StepMatchesEvent | electron/plugin-node-executor.ts:125-387 | one input changes a grant exactly as the reported event says |
| NodeGrantProtocol.StepMatchesInput | electron/plugin-node-executor.ts:125-387 | one input mints and ends a grant exactly as it demands: an Allow or stored consent of a valid sender mints; a clear, a revoke by its window, a refusal, a re-mint, another window's request, a main-frame navigation to another document and a destruction end it |
| NodeGrantProtocol.GrantIffByInputs | electron/plugin-node-executor.ts:125-387 | from the inputs alone: a window holds a grant if and only if an input minted it and no input since has ended it |
| NodeGrantProtocol.ExecutionIffByInputs | electron/plugin-node-executor.ts:286-318 | a script runs if and only if it is asked for with a grant that the inputs so far have made and not ended |
| NodeGrantProtocol.NoExecutionAfterEnd | electron/plugin-node-executor.ts:238-318 | after a clear, revoke, navigation or destruction that ends it, a triple runs again only behind a new mint of that triple |
| NodeGrantProtocol.WindowsFollowInputs | electron/plugin-node-executor.ts:129-140 | each window is alive and on the URL that its own inputs say |
| NodeGrantProtocol.StepRequests | electron/plugin-node-executor.ts:125-236 | a request waits from the input that makes it, with the window, id and URL it was made with, through consent read, dialog and persisting, until it is answered |
| NodeGrantProtocol.EventFollowsInput | electron/plugin-node-executor.ts:125-284 | mints, refusals, opened and failed dialogs, clears and revokes are logged for exactly the inputs that cause them |
| NodeGrantProtocol.MoreEventsFollowInputs | electron/plugin-node-executor.ts:128-347 | so are requests, leaving a page and executions |
| NodeGrantProtocol.GrantIffLive | electron/plugin-node-executor.ts:125-387 | and the log tells the same: a grant is in the table if and only if it was minted and nothing logged since has ended it |
| NodeGrantProtocol.ExecutionIffLive | electron/plugin-node-executor.ts:286-318 | a script runs for a triple if and only if it was asked for and the triple is live in the history before |
| NodeGrantProtocol.TokensMintedOnce | electron/plugin-node-executor.ts:383-387 | no two mints of a run share a token |
| NodeGrantProtocol.StepRegistration | electron/plugin-node-executor.ts:321-381 | one input adds or drops a cleanup registration exactly as its event says |
| NodeGrantProtocol.RegisteredIffHistory | electron/plugin-node-executor.ts:321-381 | registrations are the history: a window is registered if and only if something registered it and since then it neither left nor was released without another live grant |
| NodeGrantProtocol.DialogMintsIff | electron/plugin-node-executor.ts:181-213 | a dialog mints if and only if it was allowed, the sender is alive on the URL of its request, and the history holds a registration of the window that nothing has ended |
| NodeGrantProtocol.DialogMintNeedsRegistrationSinceLeaving | electron/plugin-node-executor.ts:181-213 | so after a navigation or destruction a dialog mint needs another registration of the window in between |
| NodeGrantProtocol.StaleDialogMintExists | electron/plugin-node-executor.ts:191-213 | an example for `DialogMintsIff`: refused after a reload, the same Allow mints once a second request has registered the reloaded page |
| NodeGrantProtocol.AskOnceSeesOnlyTheUrl | electron/plugin-node-executor.ts:164-174 | over any inputs during the consent read, a stored consent mints if and only if the window by its own navigations ends up alive on the URL of the request |
| NodeGrantProtocol.DenyOfOneDialogAffectsTheOther | electron/plugin-node-executor.ts:191-205 | after denying one of two dialogs, allowing the other mints if and only if the window holds another grant |
| NodeGrantProtocol.UndisturbedRequestFollowsTheAnswer | electron/plugin-node-executor.ts:125-236 | a request that comes to its dialog undisturbed mints a fresh token if and only if the answer is Allow, and is refused otherwise |
| NodeGrants.SafePluginIdIff | electron/plugin-node-executor.ts:34-67 | the ids let in, spelled out: 1 to 100 of 62 alphanumerics and three signs, an alphanumeric first, and none of three names |
| NodeGrantProtocol.SafeIdStaysInBundledDir | electron/plugin-node-executor.ts:25-33 | as a path segment a safe id names a direct child of the bundled directory |
| StoreFormat.ReadEntries | electron/plugin-node-consent-store.ts:74-90 | an id is in the result with a consent if and only if its entry is an object with that string `name`, string `version` and number `grantedAt` |
| StoreFormat.ConsentsInIff | electron/plugin-node-consent-store.ts:53-92 | what the store says about an id, from the JSON alone; a blob of any version but 1 and anything else not understood is no consent |
| StoreFormat.BlobRoundTrip | electron/plugin-node-consent-store.ts:53-92 | loading recovers exactly the consent map that was written |
| StoreFormat.SaveChangesOneKey | electron/simple-store.ts:56-61 | after a save the key holds its data and the other main-owned key what it held, whatever JSON the file was |
| StoreFormat.SaveKeepsOtherKeysIff | electron/simple-store.ts:56-61 | all other keys survive a save if and only if its read worked or there was nothing else |
| StoreFormat.IndexedIff | electron/simple-store.ts:56-61 | the own properties of an array are its elements, each under its decimal index |
| StoreFormat.SpreadIff | electron/simple-store.ts:56-61 | what a save copies of a file of any kind: fields of an object, elements of an array, characters of a string, nothing of the rest |
| StoreFormat.FolderInIff | electron/local-file-sync.ts:37-41 | the configured folder is the non-empty string under its key |
| StoreQueueProofs.FileIsFoldOfSaves | electron/simple-store.ts:56-65 | at every moment the file is the sequential fold of the successful saves in call order |
| StoreQueueProofs.LoadSeesAPrefix | electron/simple-store.ts:56-71 | what a load or a crash finds is the result of a settled prefix of the queue |
| StoreQueueProofs.OnlyRenamesChangeTheFile | electron/simple-store.ts:27-33 | a step leaves the file as it is, or moves it to one whole new content |
| StoreQueueProofs.FileHoldsEveryKey | electron/simple-store.ts:27-65 | in every run, failed reads included, the file holds under each key what the landed saves left: the last data for it, or nothing if a save that could not read landed since |
| StoreQueueProofs.NoUpdateIsLostIff | electron/simple-store.ts:56-65 | a key holds its last landed save, or what was there before, if and only if there is none or no save to another key that could not read landed since |
| StoreQueueProofs.EveryCallIsQueued | electron/simple-store.ts:56-65 | the queue holds, of callers, exactly what they asked for: every call's key and data, in call order |
| StoreQueueProofs.EveryMutationAndPickIsQueued | electron/plugin-node-consent-store.ts:99-144 | so do the mutation queue for sets and clears and the picks for the folders picked |
| StoreQueueProofs.NoCalledUpdateIsLostIff | electron/simple-store.ts:56-65 | from the calls: a key holds the data of its last call whose save has landed, or what was there before, if and only if there is none or no save to another key that could not read landed since |
| StoreQueueProofs.SavesGoOn | electron/simple-store.ts:27-65 | a save starts when its predecessor has settled, reads, writes aside, and lands or fails; nothing else moves it |
| StoreQueueProofs.MutationsGoOn | electron/plugin-node-consent-store.ts:99-119 | a mutation starts when its predecessor has settled, reads, asks for a save or finds nothing to do, and settles as its save does |
| StoreQueueProofs.PicksGoOn | electron/local-file-sync.ts:62-75 | a pick resumes, in call order, when its save has settled, and sets the cache exactly if that landed |
| StoreQueueProofs.ConsentStepIff | electron/plugin-node-consent-store.ts:99-119 | one input keeps the stored consents the fold of the effective mutations if and only if it does not lose consents to a failed read |
| StoreQueueProofs.ConsentsAlwaysFoldedIff | electron/plugin-node-consent-store.ts:99-119 | the stored consents are the fold of the effective mutations in call order at every moment of a run if and only if no input of it loses consents |
| StoreQueueProofs.ConsentsAreFoldOfMutations | electron/plugin-node-consent-store.ts:99-119 | this holds whenever the reads of landed saves to other keys and of effective mutations worked, whatever other reads failed |
| StoreQueueProofs.ConsentsAtQuiescence | electron/plugin-node-consent-store.ts:99-144 | once all has settled and none was lost, the stored consents are the fold of the successful sets and clears; failed ones leave nothing |
| StoreQueueProofs.StoredIffLastSet | electron/plugin-node-consent-store.ts:128-144 | a consent is stored if and only if the last successful mutation of its id set it, or it was there and untouched |
| StoreQueueProofs.InFoldIffLastEffectSets | electron/plugin-node-consent-store.ts:128-144 | at any moment an id is in the fold if and only if its last effective mutation set it, or it was there and no effective one touched it |
| StoreQueueProofs.ClearWithFailedRead | electron/plugin-node-consent-store.ts:101-119 | a clear is reported done without writing exactly if the read failed or found nothing, and then has not cleared exactly if the failed read hid the consent |
| StoreQueueProofs.NullStoreFailsMutations | electron/plugin-node-consent-store.ts:53-55 | on a store file holding `null` a mutation fails as it reads and writes nothing |
| StoreQueueProofs.Progress | electron/plugin-node-consent-store.ts:99-119 | unless everything settled, some queue entry can take a step that reduces the work left |
| StoreQueueProofs.EveryRunCanDrain | electron/plugin-node-consent-store.ts:99-119 | from every reachable state, failures included, both queues can run empty |
| SyncFolderCache.FolderAfterPick | electron/local-file-sync.ts:62-74 | the file names the last landed pick, unless a save that could not read has dropped it since |
| SyncFolderCache.CacheIsCoherentIff | electron/local-file-sync.ts:34-74 | in every run, with no landed pick still to resume, a filled cache equals the folder in the file if and only if: with a landed pick, it has not been dropped since; without, the file named no folder at first, or the first read missed it exactly if it has been dropped |
| SyncFolderCache.LateReadNeverOverwrites | electron/local-file-sync.ts:46-56 | a first read that finishes late leaves a cached folder alone |
| SyncFolderCache.FailedFirstReadIsCached | electron/local-file-sync.ts:37-59 | asking for the folder starts the first read, and the cache it seeds equals the file if and only if the read worked or there is no folder |
| SyncFolderCache.OnlyOneFirstRead | electron/local-file-sync.ts:43-45 | once cached, or with the first read started, asking reads nothing |
| SyncFolderCache.NullStoreEndsFirstRead | electron/local-file-sync.ts:37-59 | on a store file holding `null` the first read fails for good and caches nothing |
| ConsentFlow.SidesRun | electron/plugin-node-executor.ts:164-230 | grant protocol and store queues, run together, each run as if alone, so the theorems of both hold for the combination |
| ConsentFlow.InputsReachTheirSides | electron/plugin-node-executor.ts:238-256 | every input reaches the side it is for and only that; a clear drops the grant and enqueues its clear |
| ConsentFlow.NullStoreFailsLookup | electron/plugin-node-consent-store.ts:121-126 | on a store file holding `null` a look-up fails its request, which mints nothing |
| ConsentFlow.FailedLookupFindsNothing | electron/plugin-node-consent-store.ts:121-126 | a look-up whose read fails finds no consent, whatever the file holds |
| ConsentFlow.LooksUpOnce | electron/plugin-node-executor.ts:164-165 | a request looks up its consent once |
| ConsentFlow.SourcedStep | electron/plugin-node-consent-store.ts:99-144 | no step of the queues brings in a consent of an id that was not stored or set, whatever fails |
| ConsentFlow.SilentMintWasAllowed | electron/plugin-node-executor.ts:156-174 | in every run a mint without a dialog is of an id whose consent was stored at the start or allowed in an earlier dialog |
| ConsentFlow.LookupIff | electron/plugin-node-consent-store.ts:121-126 | a consent read finds the id if and only if the last effective set or clear of it was a set, or it was stored at the start and untouched; unless consents were lost to a failed read |
| ConsentFlow.ClearAfterLookupIsTooLate | electron/plugin-node-executor.ts:164-174 | once the look-up is done, whatever follows, clears of the id included, the found consent mints if and only if the window ends up alive on the URL of the request |
| ConsentFlow.AllowAfterClearPersistsAgain | electron/plugin-node-executor.ts:206-230 | a clear during the dialog is followed in the mutation queue by the set of an Allow that mints; it mints if and only if the sender is valid and its registration survived the clear |
| PosixPaths.RelativeIsPrefix | electron/file-path-guard.ts:59-60 | the textual test on the relative path is strict component prefix, except for children starting with two dots |
| PosixPaths.InsideRootIff | electron/sync-path-resolver.ts:63-67 | inside the root means: the root itself, or strictly below it under a name not starting with two dots |
| PosixPaths.SplitJoins | electron/sync-path-resolver.ts:130-136 | the pieces between the slashes, joined again, are the raw path |
| PosixPaths.ResolveJoined | electron/sync-path-resolver.ts:130-136 | every path below a root is what its names, joined by slashes, resolve to from there |
| PosixPaths.ResolveAbsolute | electron/file-path-guard.ts:20-21 | an absolute path resolves to itself, from wherever |
| PosixPaths.NormalizeAgreesWithWalk | electron/sync-path-resolver.ts:130-136 | in a filesystem without links, collapsing dots textually leads where following the segments does |
| FilePathGuard.Canonicalize | electron/file-path-guard.ts:20-37 | the loop terminates with the canonical form of the resolved path |
| FilePathGuard.CanonIsDeepest | electron/file-path-guard.ts:20-37 | the canonical form is the real path of the deepest resolvable ancestor followed by the remaining components in order |
| FilePathGuard.CanonIdempotentIff | electron/file-path-guard.ts:20-37 | canonical forms are fixed points if and only if all resolved or the failing component fails again from its real parent |
| FilePathGuard.CanonIdempotent | electron/file-path-guard.ts:20-37 | they are fixed points whenever the walk did not stop at the link limit |
| FilePathGuard.CanonNotIdempotentAtLinkLimit | electron/file-path-guard.ts:20-37 | a filesystem where the second canonicalization goes further |
| FilePathGuard.InsideIsStrictPrefix | electron/file-path-guard.ts:55-61 | inside means: canonical forms in strict prefix order, next name not starting with two dots |
| FilePathGuard.InsideIsIrreflexive | electron/file-path-guard.ts:55-61 | no directory is inside itself, on any filesystem |
| FilePathGuard.InsideIsTransitive | electron/file-path-guard.ts:55-61 | being inside is transitive through links and missing tails |
| FilePathGuard.OutsideIff | electron/file-path-guard.ts:78-86 | exactly which candidates the deny check lets through |
| SyncPathResolver.ResolveSyncPath | electron/sync-path-resolver.ts:95-195 | a result exactly for admissible input whose leaf or ancestors are accepted, and which result; otherwise the one error |
| SyncPathResolver.AdmissibleIff | electron/sync-path-resolver.ts:95-139 | what is let through before the leaf is looked at, in terms of paths; absolute paths, unset folders and roots at or under the private directory are not |
| SyncPathResolver.ExistingLeafAcceptedIff | electron/sync-path-resolver.ts:141-166 | an existing leaf is accepted if and only if it is no link and really is the root or below it |
| SyncPathResolver.UnreadableLeafRefused | electron/sync-path-resolver.ts:141-150 | any other error than a missing leaf refuses |
| SyncPathResolver.AcceptedPathStaysUnderRoot | electron/sync-path-resolver.ts:151-190 | an accepted path and its canonical form are at or under the canonical root, and its leaf is no link |
| SyncPathResolver.CreatedFileLandsUnderRoot | electron/sync-path-resolver.ts:167-190 | a file created at an accepted missing path is found at a real path under the root |
| SyncPathResolver.MissingLeafAcceptedIff | electron/sync-path-resolver.ts:172-190 | a missing leaf is accepted if and only if some ancestor resolves inside the root and all between is merely missing |
| SyncPathResolver.ExhaustedIff | electron/sync-path-resolver.ts:172-194 | the loop runs out exactly if every ancestor below the filesystem root is missing |
| SyncPathResolver.FinalThrowUnreachable | electron/sync-path-resolver.ts:191-194 | the final throw is not reached unless the sync root is the filesystem root |
| SyncPathResolver.FilesystemRootRefusesNewTopLevelFiles | electron/sync-path-resolver.ts:172-194 | with the filesystem root as sync root it is reached for every missing top-level file |
| SyncPathResolver.ResolvedIsSound | electron/sync-path-resolver.ts:95-195 | end to end: canonical root outside the private directory, path and canonical form under the root |
| SyncPathResolver.ReachesPrivateIff | electron/sync-path-resolver.ts:117-190 | below a root that is let through, some existing entry at or under the private directory is accepted if and only if that directory lies below the root under a name not starting with two dots, or above it under one that does |
| Translations.MergeInOrder | tools/add-missing-i18n-variables.js:7-22 | the loop computes the legacy merge, or throws exactly when that does |
| Translations.ExtractMissingKeys | tools/add-missing-i18n-variables.js:25-40 | the loop computes the extract of missing entries |
| Translations.MergeWipToMain | tools/add-missing-i18n-variables.js:44-64 | the loop computes the merge of work in progress over language over English |
| Translations.ValidateComplete | tools/add-missing-i18n-variables.js:67-81 | the loop computes the missing dotted paths |
| Translations.CountKeys | tools/add-missing-i18n-variables.js:84-94 | the loop computes the leaf count |
| Translations.GetAllKeys | tools/clean-translations.js:13-24 | the loop computes the dotted leaf paths |
| Translations.CleanObject | tools/clean-translations.js:27-51 | the loop computes the pruned tree |
| TranslationLaws.ExtractThenMergeIsLegacy | tools/add-missing-i18n-variables.js:25-64 | merging any work-in-progress file that agrees with the extract equals the legacy merge |
| TranslationLaws.WorkflowMatchesLegacy | tools/add-missing-i18n-variables.js:7-64 | extract then merge untouched equals the legacy mode on every language file, throws included |
| TranslationLaws.LegacyThrowsIff | tools/add-missing-i18n-variables.js:7-22 | the legacy mode throws if and only if some leaf of the reference lies where the language file has a truthy primitive for the object around it |
| TranslationLaws.ExtractThrowsIff | tools/add-missing-i18n-variables.js:25-40 | so does the extract, and also if and only if the reference holds a `null` anywhere |
| TranslationLaws.MergeThrowsIff | tools/add-missing-i18n-variables.js:44-64 | the merge throws if and only if the reference holds a `null`, or a leaf is blocked by the work in progress or, where that lacks it, by the language file |
| TranslationLaws.CountThrowsIff | tools/add-missing-i18n-variables.js:84-94 | counting throws if and only if there is a `null` anywhere |
| TranslationLaws.MergeFollowsReference | tools/add-missing-i18n-variables.js:42-64 | the merge has the reference's keys in the reference's order at every level |
| TranslationLaws.MergeIsComplete | tools/add-missing-i18n-variables.js:44-81 | after any merge validation is empty and nothing is left to extract |
| TranslationLaws.MergeTakesWipThenLangThenEnglish | tools/add-missing-i18n-variables.js:42-64 | at every leaf path of the reference, at any depth, the merge holds the work in progress, else the translation, else English |
| TranslationLaws.ExtractValidateCountAgree | tools/add-missing-i18n-variables.js:25-94 | the leaves of the extract are the validation list in order, the key count is its length, and both throw together |
| TranslationLaws.ExtractHoldsTheAbsentLeaves | tools/add-missing-i18n-variables.js:24-40 | at every leaf path of the reference the extract holds the English value exactly if the language has none |
| TranslationLaws.CleanKeepsValidLeavesIff | tools/clean-translations.js:13-51 | for all trees and keys, cleaning keeps exactly the leaves whose path is valid, in order, if and only if at every object under the empty path some valid key starts with a dot or no leaf is valid |
| TranslationLaws.CleanKeepsValidLeaves | tools/clean-translations.js:13-51 | so it does for non-empty top-level object names, despite pruning by string prefix and dots in names |
| TranslationLaws.EmptyNameLosesValidLeaves | tools/clean-translations.js:30-36 | under an empty top-level name everything is pruned, valid leaves too, unless a valid key starts with a dot |
| TranslationLaws.CleanIsIdentityIff | tools/clean-translations.js:27-51 | cleaning changes nothing if and only if every leaf is valid, no object is empty and none sits under a lost empty path |
| TranslationLaws.CleanIsIdempotent | tools/clean-translations.js:27-51 | cleaning twice is cleaning once, for all trees and keys |
| TranslationLaws.MergedFileIsCleanIff | tools/clean-translations.js:53-69 | a merged file with leaves where the reference has leaves is unchanged by cleaning with the reference's keys if and only if the reference has no empty object and none under a lost empty path |
| VersionCodes.BaseVersionCodeValue | tools/release-notes.js:93-99 | the padded digits read as positional arithmetic; a three-digit patch shifts the other parts |
| VersionCodes.PrecedenceIsTotal | tools/release-notes.js:88-106 | precedence by section 11 of Semantic Versioning 2.0.0, label names included, puts exactly one of two different versions first |
| VersionCodes.NumericNamesFirst | tools/release-notes.js:88-106 | numeric identifiers precede all others |
| VersionCodes.ValidIdentifierIff | tools/release-notes.js:88-106 | the numeric identifiers it speaks of are exactly the printed numbers |
| VersionCodes.CodesFollowPrecedenceIff | tools/release-notes.js:88-106 | codes order two versions as that precedence does if and only if they are not pre-releases of one base whose numbers contradict the order of their names, or of which one is bare and the other numbered 0 or 1 |
| VersionCodes.CodesIdentifyVersions | tools/release-notes.js:88-106 | equal codes if and only if equal triples, both or neither pre-release, and equal numbers, a bare label counting as 1 |
| VersionCodes.PreReleaseBelowReleaseIff | tools/release-notes.js:100-105 | a pre-release is below its release if and only if its number is below 9000 |
| VersionCodes.BareLabelCollides | tools/release-notes.js:99-101 | a bare label, which precedes all its numbered forms, has the smaller code exactly from number 2 on and the same code exactly at 1 |
| VersionCodes.UniqueCodeIff | tools/release-notes.js:92-98 | minor and patch have at most two digits if and only if no other version of the scheme with the same label has the same code |
| VersionCodes.ThreeDigitPatchCollides | tools/release-notes.js:92-98 | with a three-digit patch, which version of the scheme shares the code |
| VersionCodes.UnderscoresRoundTrip | tools/release-notes.js:106-109 | removing the underscores gives ten digits that read as the code |
| VersionCodes.UnderscorePositions | tools/release-notes.js:106-109 | up to ten digits the underscores stand after two, four and six digits; longer codes have none |
| VersionCodes.SchemeFitsTenDigits | tools/release-notes.js:106-109 | codes have at most ten digits exactly up to major 99 |
| VersionCodes.DevCodeCases | tools/android-dev-version-code.js:40-58 | for every base and count: refused, skipped, or the base plus the count |
| VersionCodes.DevCodesFillTheGap | tools/android-dev-version-code.js:32-58 | a dev code exists exactly for 1 to 999 commits, above its release and below every later version |
| VersionCodes.DevCodesNeverCollide | tools/android-dev-version-code.js:40-58 | no dev code is the code of a release or pre-release |
| VersionCodes.DevCodesIncrease | tools/android-dev-version-code.js:40-58 | dev codes compare as tag, then commits |
| IcnsWriter.BuildIcns | tools/generate-mac-icon.js:95-127 | the buffer is filled exactly with header, sizes and entries, or the size does not fit 32 bits |
| IcnsWriter.AppendType | tools/generate-mac-icon.js:118-119 | four bytes of type, cut or zero-filled, and nothing else written |
| IcnsWriter.AppendEntry | tools/generate-mac-icon.js:117-124 | one round of the loop appends type, length and data without a gap |
| IcnsWriter.ReadBack | tools/generate-mac-icon.js:95-127 | a reader that follows the lengths recovers every entry with its type as stored |
| IcnsWriter.RoundTripIff | tools/generate-mac-icon.js:95-127 | the entry list itself comes back if and only if all types have four bytes |
| IcnsWriter.HeaderLayout | tools/generate-mac-icon.js:110-115 | the container starts with the characters `icns` and its own length |
| IcnsWriter.EntryLayout | tools/generate-mac-icon.js:117-124 | each entry stands right behind the ones before it, with its type, its own length and its data |
| IcnsWriter.BigEndianDigits | tools/generate-mac-icon.js:114-121 | lengths are written most significant byte first |
| IcnsWriter.ReadMeansWritten | tools/generate-mac-icon.js:95-127 | whatever the reader accepts is, byte for byte, the container of what it read |
| ReleaseNoteHeadings.DropEmptyHeadings | tools/prepare-appstore-release-notes.js:69-85 | the backward pass keeps a heading exactly if content follows before the next heading |
| ReleaseNoteHeadings.StripOtherPlatformLines | tools/prepare-appstore-release-notes.js:94-104 | keeps the other lines, then drops empty headings, and reports exactly the removed platform lines |
| ReleaseNoteHeadings.PlatformLinesGo | tools/prepare-appstore-release-notes.js:94-102 | wherever it stands, a line goes exactly if it names another platform, exactly then it is reported, and every other line stays in its place |
| ReleaseNoteHeadings.HasContentAheadIff | tools/prepare-appstore-release-notes.js:69-85 | content ahead means: some content line with no heading before it |
| ReleaseNoteHeadings.ResultHasNoEmptyHeading | tools/prepare-appstore-release-notes.js:69-85 | every kept heading is followed by kept content before the next heading |
| ReleaseNoteHeadings.CleanTextIsUnchanged | tools/prepare-appstore-release-notes.js:69-85 | a text without empty headings stays as it is |
| ReleaseNoteHeadings.DropIsIdempotent | tools/prepare-appstore-release-notes.js:69-85 | the pass is idempotent |
| ReleaseNoteHeadings.OtherLinesStay | tools/prepare-appstore-release-notes.js:69-85 | all non-heading lines stay in order |
| ReleaseNoteHeadings.StrippedNotesAreClean | tools/prepare-appstore-release-notes.js:94-104 | no listed platform and no empty heading is left, and no other line is lost |
| IdleMethods.IdleTimeHandler.constructor | electron/idle-time-handler.ts:58-62 | a new handler has no demotion and no attempt behind it |
| IdleMethods.IdleTimeHandler.IsCoolingDown | electron/idle-time-handler.ts:219-225 | true if and only if some demotion of the session, forgotten ones included, is less than five minutes old |
| IdleMethods.IdleTimeHandler.BuildWaylandCandidates | electron/idle-time-handler.ts:277-335 | the helper is a candidate if and only if every demotion of the session has cooled off |
| IdleMethods.CandidatesIff | electron/idle-time-handler.ts:277-335 | which methods are tried in which session, the helper only while not cooling down |
| IdleMethods.CandidatesInOrder | electron/idle-time-handler.ts:277-335 | they are tried in one fixed order, without repeats |
| IdleMethods.DetectionTakesTheFirstThatWorks | electron/idle-time-handler.ts:248-274 | over any inputs, the answer about the helper coming late included, detection takes the first candidate whose test says yes, and no method if and only if all say no |
| IdleMethods.UntilDetectedFollows | electron/idle-time-handler.ts:248-274 | where that theorem looks: at the state after the inputs, or after those up to the end of detection |
| IdleMethods.IdleTimeHandler.EnsureWaylandIdleHelperStarted | electron/idle-time-handler.ts:382-417 | keeps the invariant; a new child is tracked only if there was none and every demotion has cooled off |
| IdleMethods.IdleTimeHandler.HandleWaylandIdleHelperFailure | electron/idle-time-handler.ts:528-539 | keeps the invariant; the third outstanding failure, and no other, is a demotion and ends all use of the helper |
| IdleMethods.IdleTimeHandler.MaybePromoteToWaylandIdleNotify | electron/idle-time-handler.ts:191-217 | keeps the invariant; attempts if and only if the session could use the helper and does not, none is under way, every earlier attempt is a minute old and every demotion five |
| IdleMethods.IdleTimeHandler.TryPromoteToWaylandIdleNotify | electron/idle-time-handler.ts:227-246 | keeps the invariant, adds no demotion and no attempt |
| IdleMethods.IdleTimeHandler.OnPromotionAnswer | electron/idle-time-handler.ts:227-244 | keeps the invariant although the stamp is cleared, because by then every demotion has cooled off |
| IdleMethods.ShapeStep | electron/idle-time-handler.ts:107-144 | who may wait for the helper, one tracked child at most, and at most two outstanding failures, after every input |
| IdleMethods.HelperFollowsInputs | electron/idle-time-handler.ts:382-513 | when a child is started, ready, gone, idle or resumed: started if and only if someone asks, none is ready or starting and the binary is there |
| IdleMethods.FailuresFollowInputs | electron/idle-time-handler.ts:129-146 | the count goes up for exactly the polls that are answered no, demotes on the third, and starts again for a ready child or a yes while idle |
| IdleMethods.DetectionFollowsInputs | electron/idle-time-handler.ts:171-274 | what each input makes of the detection, the working method and the demotion stamp |
| IdleMethods.PollFollowsInputs | electron/idle-time-handler.ts:107-169 | where the one poll stands: what it waits for, and when it ends |
| IdleMethods.PromotionFollowsInputs | electron/idle-time-handler.ts:191-246 | when a promotion is attempted, under way and over |
| IdleMethods.StartOfSession | electron/idle-time-handler.ts:58-62 | how a session starts; outside Wayland there is nothing to detect |
| IdleMethods.SpawnsOnlyWhenCool | electron/idle-time-handler.ts:382-417 | a spawn replaces no tracked child and finds every demotion cooled off |
| IdleMethods.NoSpawnDuringCooldown | electron/idle-time-handler.ts:219-225 | in every run a spawn is at least five minutes after every earlier demotion |
| IdleMethods.CoolingIffRecentDemotion | electron/idle-time-handler.ts:219-239 | in every run the handler is cooling down exactly while some demotion is less than five minutes old, although a promotion clears the stamp |
| IdleMethods.AttemptsAreSpaced | electron/idle-time-handler.ts:206-216 | in every run promotion attempts are at least a minute apart |
| IdleMethods.CountIsFailuresSince | electron/idle-time-handler.ts:528-539 | the counter is the number of failures since the last reset or demotion, and below three |
| IdleMethods.DemotionIsThirdFailure | electron/idle-time-handler.ts:528-539 | a failure demotes if and only if it is the third since then |
| IdleMethods.DemotionFollowsFailure | electron/idle-time-handler.ts:528-539 | every demotion directly follows a failure |
| GpuStartupGuard.Guard.EvaluateGpuStartupGuard | electron/gpu-startup-guard.ts:65-137 | the decision with its marker path, from overrides and a marker that may be unreadable, and the marker it leaves |
| GpuStartupGuard.Guard.MarkGpuStartupSuccess | electron/gpu-startup-guard.ts:149-160 | removes the marker exactly in a confined launch whose unlink works |
| GpuStartupGuard.Guard.RunLaunch | electron/gpu-startup-guard.ts:65-160 | decision and marker of a whole launch |
| GpuStartupGuard.DecisionIff | electron/gpu-startup-guard.ts:65-137 | an override decides alone, enabling before disabling; otherwise only a recent readable marker of the same Electron in a confined launch disables, and the reason says which it was |
| GpuStartupGuard.MarkerIsOpenLaunch | electron/gpu-startup-guard.ts:65-160 | the marker records exactly the last launch that wrote, provided no launch from it on succeeded |
| GpuStartupGuard.CrashRecoveryIff | electron/gpu-startup-guard.ts:105-137 | crash recovery if and only if the marker can be read and that launch exists, wrote it under five minutes ago and ran the same Electron |
| CloseProtocol.CloseHandler.SetQuitRequested | electron/main-window.ts:87-96 | cancels whatever timeout was on its way; afterwards the flag stands for exactly one pending timeout, a new one |
| CloseProtocol.CloseHandler.OnTimeout | electron/main-window.ts:90-95 | the callback is that of the request in force, and leaves none pending |
| CloseProtocol.CloseHandler.RemoveId | electron/main-window.ts:616-620 | exactly this id goes, however often it is there; every other one stays, as often and in order |
| CloseProtocol.CloseHandler.OnClose | electron/main-window.ts:629-653 | the whole outcome of a close event, re-entry included, with a bounded depth |
| CloseProtocol.CloseHandler.QuitAfterActions | electron/main-window.ts:606-611 | beginning to quit re-enters the close handler once |
| CloseProtocol.CloseHandler.OnBeforeCloseDone | electron/main-window.ts:619-627 | the last action done closes the window |
| CloseProtocol.CloseReports | electron/main-window.ts:629-653 | a close ends in exactly one of: hidden, notified, let through, or quit begun and let through |
| CloseProtocol.ListIsWhoIsAtWork | electron/main-window.ts:613-627 | by the inputs: the list holds exactly the ids registered and neither reported done nor unregistered since, each as often as registered |
| CloseProtocol.LetGoIff | electron/main-window.ts:603-653 | an open window is let go if and only if `quitApp()` is called, or a close that the tray does not take comes with no action at work |
| CloseProtocol.NotLetGoWhileAtWork | electron/main-window.ts:613-653 | while an action is at work nothing but an explicit quit ends the window |
| CloseProtocol.SettingsAreTheLastChange | electron/main-window.ts:632-634 | the tray settings in force are those of the last change |
| CloseProtocol.HiddenUntilShownAgain | electron/main-window.ts:632-642 | the window is hidden exactly from a hide to the tray until it is shown again |
| CloseProtocol.RequestsFollowInputs | electron/main-window.ts:87-109 | a quit request is made exactly by asking for it with an open window, and expires exactly by its own timeout |
| CloseProtocol.FlagIffTimer | electron/main-window.ts:82-96 | in every run the flag is up exactly while a request is in force by the history, and its timeout is the only one pending |
| CloseProtocol.ExpiryEndsTheLatestRequest | electron/main-window.ts:87-96 | a timeout that fires is that of the latest request: asking again gives the full time again |
| CloseProtocol.LetThroughOnlyAfterActions | electron/main-window.ts:603-653 | in every run the window is let go only after quitting began explicitly or with no action registered |
| CloseProtocol.PlainCloseHidesIff | electron/main-window.ts:632-652 | without a live request a close hides exactly if minimise-to-tray has a tray, and then never quits |
| CloseProtocol.LastActionQuitsIff | electron/main-window.ts:619-653 | the last action done quits if and only if the tray does not take the close |
| CloseProtocol.SlowActionsTurnQuitIntoHide | electron/main-window.ts:75-109 | a requested quit whose action outlasts the request ends in the tray |
| TrayMenu.Indicator.CreateContextMenu | electron/indicator.ts:521-557 | the loop builds one entry per task of today, in order, checked for the running one |
| TrayMenu.Indicator.RedrawIfChanged | electron/indicator.ts:242-257 | afterwards the cache holds the values of now, redrawn or not |
| TrayMenu.Indicator.OnCurrentTaskUpdated | electron/indicator.ts:272-346 | a menu that is current stays current, and the cache is in sync afterwards however stale it was |
| TrayMenu.Indicator.OnSetProgressBar | electron/indicator.ts:210-257 | the same for a progress tick of a known work item |
| TrayMenu.Indicator.OnTodayTasksUpdated | electron/indicator.ts:384-395 | a menu that is current stays current, and the cached list is that of today |
| TrayMenu.Indicator.Sync | electron/indicator.ts:407-420 | draws what is current if and only if there is a work item or no message is left over |
| TrayMenu.Indicator.Ensure | electron/indicator.ts:127-140 | a tray it creates is current if and only if the cache was in sync |
| TrayMenu.MenuCurrentStep | electron/indicator.ts:210-395 | a current menu with a cache in sync stays so under every event |
| TrayMenu.StaleMessageShows | electron/indicator.ts:384-395 | a cached message that is not current comes back with the next today list |
| TrayMenu.StaleTodayShows | electron/indicator.ts:384-395 | a remembered today list is not drawn |
| TrayMenu.StaleTaskShows | electron/indicator.ts:329-346 | returning to the remembered work item leaves the check mark where it was |
| TrayMenu.CacheRefinesRedrawIff | electron/indicator.ts:127-395 | while one tray lives the menu is what a redraw on every event shows, if and only if the cache is in sync when the tray is created |
| TrayMenu.MenuShowsTheLatest | electron/indicator.ts:210-395 | straight from the events: with the cache in sync at creation, the menu is the one for the last work item, session and today list that arrived |
| TrayMenu.StateFollowsEvents | electron/indicator.ts:272-395 | what is remembered is the last work item, session and today list that arrived |
| TrayMenu.RefreshAndEnsure | electron/indicator.ts:127-140 | refreshing redraws a living tray, ensuring does not and revives a dead one |
| TrayMenu.NothingDrawnWithoutTray | electron/indicator.ts:283-395 | without a tray nothing is drawn and the cache stays |
| TrayMenu.FlowtimeMessage | electron/indicator.ts:486-494 | in flowtime the time spent with what is left of the estimate |
| TrayMenu.FocusMessage | electron/indicator.ts:476-485 | in another focus mode the time of the session; without a title nothing |
| TrayMenu.PlainMessage | electron/indicator.ts:496-512 | otherwise the pomodoro's time, or the time spent with what is left of the estimate or over it |
| TrayMenu.LabelFits | electron/indicator.ts:531-533 | labels have at most 40 characters; longer titles are cut and dotted |
| TrayMenu.FirstTrayIsAlwaysCurrent | electron/indicator.ts:87-140 | the first tray of a process always is |
| TrayMenu.FormatTimeShowsWholeMinutes | electron/indicator.ts:632-640 | two times show the same text if and only if their whole minutes agree |
| TrayMenu.TickRedrawsIffMinuteTurns | electron/indicator.ts:329-346 | a tick of the running work item redraws the menu if and only if its whole minutes change |

## Left out

- StoreQueueProofs.ConsentsAreFoldOfMutations: asks that the decisive reads worked, which is sufficient; `ConsentsAlwaysFoldedIff` has the exact condition.
- StoreQueueProofs.ConsentsAtQuiescence: asks that no input lost consents to a failed read; a loss may be made up for by a later set, which this does not follow.
- ConsentFlow.LookupIff: the same condition; `SilentMintWasAllowed` holds without it.
- TranslationLaws.CleanKeepsValidLeaves: asks that no top-level object sits under the empty key; `CleanKeepsValidLeavesIff` has the exact condition.
- VersionCodes.CodesFollowPrecedenceIff: asks for two-digit minors and patches and pre-release numbers below 9000; `UniqueCodeIff` and `PreReleaseBelowReleaseIff` say what happens beyond.
- SyncPathResolver.ReachesPrivateIff: is about existing entries and a private directory that exists; names still to be created below it are not followed.
- Concurrency in place: the two store queues and the folder cache are step functions on values, because their module variables are promise chains; the object identity of promises is not captured.
- Corrupt store files and a store that is a legacy directory: quarantine and directory removal run outside the queue and are not part of the model.
- JSON text, numbers that overflow to infinity, and the temporary file's bytes: contents are parsed values and a rename is one step.
- Display strings, dialog texts and the built-in manifest lookup of the executor: the lookup is an input; id validation is modelled.
- Script execution itself (`vm`, `spawn`) and its timeouts.
- Case-insensitive file names, short-name aliases and Windows paths: the filesystem is POSIX.
- Changes of the filesystem between resolving a path and using it.
- Keys that name members of `Object.prototype`, array indices and `length` looked up in translation arrays or strings, integer-like key reordering, and `null` in the reference file beyond the fact that the incremental tools throw on it.
- Splitting version strings at dots and hyphens, version parts that are not numbers, and pre-releases with more than a label and a number.
- Regular expressions for headings and platforms: a line carries what they say about it.
- The moments of a crash marker that is cut short or malformed: it counts as unreadable; all launches share one user data directory, and its creation is part of the write.
- The external idle commands and their parsing, and `dispose`: candidate results are inputs.
- The renderer's `beforeunload`, window state saving, and a before-close message after the window is gone, which throws in the source and changes only the id list here.
- Tray icon, title and tooltip, and the closures behind menu entries apart from the id they switch to.
- The sync engine, plugins, HTTP, OAuth and the release-note generator beyond the two passes above.
