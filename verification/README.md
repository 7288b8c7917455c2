# WuWaTerm: verified model

A Dafny model of the parts of WuWaTerm whose correctness spans many steps: the transactional
updater, the channel's admission and in-place edits, term locking and HTML protection, the pair
review, the settings transaction, the shared quota pool, and the smaller transformations around
them. `dafny verify dfyconfig.toml` checks all of it.

What is modelled:

* **Updater** (`Deployment.dfy`, `RuntimeUpdate.dfy`). A class holding the journal, the commit
  pointer, manifests, images, services and the database fingerprint. Every external command may
  succeed, fail, half-succeed, be interrupted by a signal, or kill the process; `Died` ends a run
  wherever it stands. `calm` marks runs whose commands succeed, `quiet` runs no signal reaches. The ghost `audit` records every
  durable write and container start with the state it found, the ghost `acts` every announced
  phase and outside action, so that a skipped or misplaced step of a successful run is visible.
* **Channel** (`ChannelRuntime.dfy`, `ChannelPost.dfy`, `ChannelEdit.dfy`). The admission queue
  and token budget with a ghost history of started calls and any interleaving of tasks; one post
  from reservation to release; the edit, delete and send loop against a world that answers each
  question as it likes, with a log of what was asked.
* **Reply index** (`ReplySchema.dfy`, `ReplyIndex.dfy`). Entries, sightings, single-flight claims,
  edit tokens and the coalescing saver, with its JSON round trip.
* **Terms and HTML** (`Dictionary.dfy`, `TermSpans.dfy`, `Placeholders.dfy`, `Overlaps.dfy`,
  `Sentence.dfy`, `TelegramHtml.dfy`, `LockedHtml.dfy`). Which surfaces may be locked, exhaustive
  search, longest-first choice, and placeholder substitution as the scanning loops and sequential
  replacements it is made of. Term locking has the exact condition of its round trip; a random
  token that does not occur in the text being restored to meets it, and is the premise of the other
  round trips, along with tokens that differ.
* **Review** (`SentenceRanges.dfy`, `Mentions.dfy`, `Review.dfy`, `ReviewProjection.dfy`).
* **Settings** (`ChatSettings.dfy`), **quota pool** (`SharedPool.dfy`), **splitters**
  (`TelegramText.dfy`, `PlainText.dfy`), **manuscripts** (`Manuscript.dfy`), **database diff**
  (`TermsDiff.dfy`). `Text.dfy` and `Sorting.dfy` hold strings, numerals and a stable sort.

What the proofs found out about the code:

* A database file with a time stamp before 1970 makes the updater write journals that its own
  loader refuses (`RuntimeUpdate.Host.NewDeployment` has the exact condition for a whole
  transaction).
* A rollback alias already bound to another image before the alias step makes recovery refuse for
  as long as it stays (`RuntimeUpdate.Host.OpenJournalIsRestorable` has the exact condition,
  `RuntimeUpdate.ForeignAliasBlocksRecovery` a run that gets there).
* The per-minute call budget is kept by every half-open minute, not by closed ones
  (`ChannelRuntime.ClosedMinuteExceedsBudget` is such a run).
* An edit cut short can leave a visible reply untracked (`ChannelEdit.GatedOrphans` has the exact
  condition, `ChannelEdit.GatedOrphanExample` a run).
* Checking a placeholder prefix against the source alone is not enough: restoring the unmodified
  text can raise (`Sentence.PrefixCheckIsNotEnough`), and can return a wrong text without raising
  (`Sentence.OverlapSlipsThrough`). `Sentence.LockedRestoresIff` says exactly when it is right.
* A change of the number of repeated rows changes a category's reported count without any row in
  the report (`TermsDiff.CountChangeIff` has the exact condition, `TermsDiff.DuplicatesGoUnseen` an
  example).
* The final token comparison of `restore` in `telegram_html.py` and the search for another form
  after a user's choice in `_judge_mention_v2` (`review.py:900-906`) never decide anything; the
  last fallbacks of `split_plain_text` and `_sentence_ranges_v2` are never taken.

The database diff, the settings payload and the reply payload are read as sets of rows where the
code sorts them: their order is not part of what is stated.

## Model

| member | source | states |
|---|---|---|
| RuntimeUpdate.Host.Recover | scripts/runtime_update.py:1180-1258 | a recovery whose commands succeed, with no signal before its guard is up, succeeds exactly from the restorable states; success means both services on the rollback alias and old image, the alias and the old manifest as recorded, the old pointer, an unchanged database, the journal `recovered`/`rolled_back`, and every announcement, stop, start, probe, comparison and pointer change made in order; a failure either touched nothing or left unresolved intent with a stop as the last act, and in a calm run that stop worked; the loader takes every journal a recovery writes |
| RuntimeUpdate.Host.NewDeployment | scripts/runtime_update.py:1028-1177 | in a calm run without a signal it succeeds if and only if the machine is deployable, the rollback alias its process number leads to is right or can be made, and the target image can be had (the checkout builds into an image of its own, or the reused one still has its recorded digest), or the head is already served; from the first it ends committed with every act made in order, from the second with nothing changed; in a calm run it never leaves the services stopped: whatever fails and whenever a signal comes, the old image serves on under the old pointer and a closed journal, unless the old services run under the very reference the deployment builds; in any run the pointer holds what it held or the source commit, a live journal stops it before anything changes, success means pointer, manifest, image and database agreeing, and the loader takes every journal the transaction writes exactly when no database time stamp is before 1970 and a reused manifest records a digest |
| RuntimeUpdate.Host.CarryOut | scripts/runtime_update.py:1096-1177 | what a run has opened stays its transaction to the end; in a calm run without a signal over the machine as read it commits if and only if alias and target can be had, and otherwise the old image serves on |
| RuntimeUpdate.Host.RunOpened | scripts/runtime_update.py:1096-1177 | the same, from the plan the transaction was opened with |
| RuntimeUpdate.Host.OpenedPromotable | scripts/runtime_update.py:1096-1145 | what an opened transaction needs to go through is exactly what a caller could check before it |
| RuntimeUpdate.Host.RecoveredDeployable | scripts/runtime_update.py:1028-1095 | after a recovery the same commit is deployable again, from the services on the rollback alias, exactly when nothing newer was pushed, the old image has a reference and a manifest left behind still has its image |
| RuntimeUpdate.Host.History | scripts/runtime_update.py:1028-1258 | any interleaving of deployments, recoveries, deaths and outside changes keeps the invariant, and every journal write, pointer change and container start in the audit is sound at its own moment; the loader takes every journal ever written exactly when it takes those that open a transaction, and then the one on disk |
| RuntimeUpdate.Host.OpenJournalIsRestorable | scripts/runtime_update.py:1180-1219 | for every open journal a crash can leave, recovery depends only on what the caller can see: checkout, tools, database, old manifest, and, before the alias step, whether Docker can produce the alias |
| RuntimeUpdate.OpenOverForeignAlias | scripts/runtime_update.py:1028-1095 | on a machine whose only fault is that another image holds the alias its process number leads to, a deployment opens its journal unless a signal stops it before; checkout, tools, database, manifest, pointer and services are then all as a recovery wants them |
| RuntimeUpdate.ForeignAliasBlocksRecovery | scripts/runtime_update.py:740-759 | recovery of such a transaction refuses, though each of its commands does what it says |
| RuntimeUpdate.Host.RecoverAdmission | scripts/runtime_update.py:1198-1219 | in a calm run the checks under the guard pass if and only if database, manifest and alias are what the journal says |
| RuntimeUpdate.Host.RecoverRestart | scripts/runtime_update.py:1220-1239 | announces, stops, announces and starts the old image on the alias, then probes it; always done in a calm run |
| RuntimeUpdate.Host.RecoverPointer | scripts/runtime_update.py:1240-1247 | the pointer ends on the old commit, announced first and only if it had moved |
| RuntimeUpdate.Host.RecoverServing | scripts/runtime_update.py:1220-1247 | the old image serves again and the pointer is back, announced first; always done in a calm run |
| RuntimeUpdate.Host.RecoverSteps | scripts/runtime_update.py:1220-1249 | closes as rolled back only with the pointer, both services and the database as the journal recorded them |
| RuntimeUpdate.Host.RecoverPreflight | scripts/runtime_update.py:1181-1193 | in a calm run it passes exactly for an open, loadable journal under the same clean checkout and tools |
| RuntimeUpdate.Host.RecoverGuarded | scripts/runtime_update.py:1194-1258 | in a calm run the guarded part succeeds if and only if it is admissible; a failure records unresolved intent and stops both services |
| RuntimeUpdate.Host.RecoverAttempt | scripts/runtime_update.py:1196-1249 | the guarded body succeeds in a calm run exactly when it is admissible |
| RuntimeUpdate.Host.DeploySteps | scripts/runtime_update.py:1099-1145 | in a calm run without a signal they succeed if and only if the alias can be provided, the target obtained and its manifest recorded; they report faithfully whether activation was attempted and the stop completed; before activation no service, pointer or manifest changed and no other image was lost; a stop that failed is followed by nothing |
| RuntimeUpdate.Host.Replace | scripts/runtime_update.py:1115-1144 | from the first stop on: in a calm run without a signal over the recorded database it commits if and only if the manifest can be recorded; it says whether the stop completed |
| RuntimeUpdate.Host.HandleFailure | scripts/runtime_update.py:1146-1177 | a failed deployment ends rolled back, with the complete rollback sequence when activation was attempted and untouched services when not, or quiesced; in a calm run over the recorded database always rolled back, if before activation the old binding is where it was |
| RuntimeUpdate.Host.Reraise | scripts/runtime_update.py:1156-1158 | the handler of a failed rollback adds nothing but, at most, the same intent once more |
| RuntimeUpdate.Host.PrepareImage | scripts/runtime_update.py:1100-1115 | in a calm run without a signal it succeeds if and only if the alias can be provided and the target obtained; the target reference then names an image of the source commit before anything stops, a reused one as it was found, and nothing but phases and a build happened |
| RuntimeUpdate.Host.ObtainTarget | scripts/runtime_update.py:1100-1113 | the same up to the identity of the target image |
| RuntimeUpdate.Host.AnnounceBuild | scripts/runtime_update.py:1100-1105 | in a calm run without a signal it succeeds exactly when the alias can be provided; at most the alias moves |
| RuntimeUpdate.Host.AnnounceStop | scripts/runtime_update.py:1113-1114 | the image and then the stop are announced, in a calm run always |
| RuntimeUpdate.Host.ProvideTarget | scripts/runtime_update.py:1100-1107 | the alias is provided before the build, and the build only if the target is not reused; in a calm run the target reference then names an image of the source commit exactly when one can be had, and every other image stays |
| RuntimeUpdate.Host.IdentifyTarget | scripts/runtime_update.py:1103-1113 | the adopted identity is what the target reference names, built from the source commit; in a calm run without a signal it succeeds exactly then, with the digest Docker reports |
| RuntimeUpdate.Host.BuildTarget | scripts/runtime_update.py:1105-1107 | building never takes the rollback alias away; in a calm run the reference then names an image of the source commit unless the image the checkout builds into is an older one of another commit |
| RuntimeUpdate.Host.ActivateTarget | scripts/runtime_update.py:1117-1132 | the start is announced before it, and both services are bound to the target image after it; in a calm run without a signal it cannot fail |
| RuntimeUpdate.Host.StartNew | scripts/runtime_update.py:1117-1136 | both services are bound to the target image, probed, and the database unchanged; in a calm run without a signal over an unchanged database it cannot fail |
| RuntimeUpdate.Host.RecordManifest | scripts/runtime_update.py:1137-1139 | the pointer is announced only after a verified manifest for the source commit binds the target image; in a calm run it fails only where a manifest is in the way |
| RuntimeUpdate.Host.PublishNew | scripts/runtime_update.py:1137-1142 | the pointer ends on the source commit only with a verified manifest for the served image, announced before; in a calm run without a signal exactly when that manifest can be recorded |
| RuntimeUpdate.Host.Promote | scripts/runtime_update.py:1137-1144 | commits with pointer, manifest, image and database in agreement, in a calm run without a signal exactly when the manifest can be recorded; the pointer becomes nothing but the source commit |
| RuntimeUpdate.Host.CreateManifest | scripts/runtime_update.py:831-872 | afterwards a manifest for the source commit verifies and binds exactly the transaction image, whether it existed or was written and read back; in a calm run it succeeds exactly when a manifest that is there is that one, or the image can be recorded |
| RuntimeUpdate.Host.SetJournal | scripts/runtime_update.py:290-294 | the journal file is replaced as a whole or not at all, and every replacement is sound when it happens |
| RuntimeUpdate.Host.Advance | scripts/runtime_update.py:290-294 | a phase change of an open transaction: the plan never changes, past the alias step the alias is there |
| RuntimeUpdate.Host.CloseRolledBack | scripts/runtime_update.py:962 | `rolled_back` is written only with the old pointer and both services on the old image |
| RuntimeUpdate.Host.CloseCommitted | scripts/runtime_update.py:1144 | `committed` is written only with the source pointer, an unchanged database and a manifest binding the served image; a calm write succeeds |
| RuntimeUpdate.Host.PublishPointer | scripts/deployment_manifest.py:282-297 | the pointer changes only to the old or the source commit, only after the journal on disk announced it, and to the source only with its manifest verified |
| RuntimeUpdate.Host.PutPointer | scripts/deployment_manifest.py:282-297 | the pointer file is replaced as a whole or not at all, and each replacement is sound when it happens |
| RuntimeUpdate.Host.ComposeUp | scripts/runtime_update.py:1119-1127 | containers start only on the rollback alias or, in the `starting` phase, on the target |
| RuntimeUpdate.Host.EnsureRollbackAlias | scripts/runtime_update.py:740-759 | in a calm run it succeeds if and only if the alias exists with the right identity, or is absent while the old image is stored; afterwards it names the old image |
| RuntimeUpdate.Host.ProvideAlias | scripts/runtime_update.py:740-752 | a missing alias is announced as unresolved intent before it is tagged |
| RuntimeUpdate.Host.AssertAlias | scripts/runtime_update.py:753-759 | passes in a calm run if and only if the alias names the old image with the old revision |
| RuntimeUpdate.Host.MakeAlias | scripts/runtime_update.py:742-752 | unresolved intent is on disk before the tag; tagging the old image makes the alias right exactly when that image carries the old revision |
| RuntimeUpdate.Host.TagAlias | scripts/runtime_update.py:744-751 | tagging never takes a right alias away, and moves nothing else |
| RuntimeUpdate.Host.RestartOld | scripts/runtime_update.py:934-958 | quiesce, comparison, restore, start and probe in order, the stop only when asked; in a calm run over an unchanged database it cannot fail |
| RuntimeUpdate.Host.QuiesceOld | scripts/runtime_update.py:935-937 | unresolved intent first, then the stop, only when asked |
| RuntimeUpdate.Host.BeginRestore | scripts/runtime_update.py:935-939 | the restart is announced only after the quiesce and over the recorded database |
| RuntimeUpdate.Host.RestorePointer | scripts/runtime_update.py:959-962 | a pointer that moved is announced and put back; one that did not is not written |
| RuntimeUpdate.Host.RestoreSteps | scripts/runtime_update.py:934-962 | success means rolled back on disk with the old pointer and old image, through the full sequence of acts |
| RuntimeUpdate.Host.RestoreOld | scripts/runtime_update.py:928-974 | in a calm run over an unchanged database rollback succeeds; otherwise a failure leaves unresolved intent and a stop of both services |
| RuntimeUpdate.Host.RecordAndQuiesce | scripts/runtime_update.py:963-974 | the failed path persists intent if it can and stops both services last; in a calm run both work |
| RuntimeUpdate.Host.ProveUntouched | scripts/runtime_update.py:896-913 | closes as rolled back only when pointer, manifest, services and database are proven as they were, the database compared twice; in a calm run without a signal exactly then |
| RuntimeUpdate.Host.ProveBinding | scripts/runtime_update.py:896-912 | its checks pass in a calm run without a signal exactly when database, pointer, manifest and services are as they were |
| RuntimeUpdate.Host.CloseOrQuiesce | scripts/runtime_update.py:896-922 | in a calm run the journal closes exactly when the old binding is proven, and otherwise both services are stopped under unresolved intent |
| RuntimeUpdate.Host.HandlePreActivationFailure | scripts/runtime_update.py:882-925 | a failure before the first stop restarts nothing: in a calm run it is closed exactly when the old binding is where it was, and quiesced otherwise; it never raises |
| RuntimeUpdate.Host.RepointOld | scripts/runtime_update.py:959-962 | announce, write and read back the old pointer |
| RuntimeUpdate.Host.StartOld | scripts/runtime_update.py:940-957 | start on the alias and probe; done means both services bound to the old image |
| RuntimeUpdate.Host.OpenTransaction | scripts/runtime_update.py:1095 | the first journal write leaves the disk as it was or with exactly the prepared journal; a calm one succeeds |
| RuntimeUpdate.Host.FirstJournal | scripts/runtime_update.py:1086-1094 | the journal a deployment opens with names the pointer, its manifest, the database as read and, when reused, the recorded target image |
| RuntimeUpdate.Host.Begin | scripts/runtime_update.py:1028-1095 | up to the first journal write: in a calm run without a signal a transaction is opened exactly from the deployable states, and an idempotent success reported exactly from those that already serve the head; otherwise the disk is as it was, or the journal that was planned is on it |
| RuntimeUpdate.Host.RunTransaction | scripts/runtime_update.py:1096-1177 | an opened transaction ends committed with every act in order, or rolled back, or quiesced; in a calm run without a signal it commits if and only if alias, target and manifest can be had, and in a calm run over an undisturbed old binding it otherwise ends rolled back; the pointer becomes nothing but the source commit |
| RuntimeUpdate.Host.SwitchOver | scripts/runtime_update.py:1117-1144 | the new image is started and proven before the manifest, the pointer and the commit; in a calm run without a signal it commits exactly when the manifest can be recorded |
| RuntimeUpdate.Host.Preflight | scripts/runtime_update.py:1029-1094 | nothing is planned against a live journal; in a calm run without a signal a plan is made exactly from the deployable states and an idempotent success reported exactly from those that already serve the head; a plan names the checkout as source, the pointer as old commit and the database as read, with the old image serving under the reference found; a manifest for the source commit is reused with its image |
| RuntimeUpdate.Host.ReadSurroundings | scripts/runtime_update.py:1029-1042 | in a calm run without a signal it passes exactly for a clean, pushed checkout, a readable database and pointer, and no journal or a loadable closed one |
| RuntimeUpdate.Host.PlanTransaction | scripts/runtime_update.py:1045-1094 | in a calm run without a signal a plan is made exactly when the target manifest, if there is one, can be reused and both services run the image of the old manifest; its journal is the one made of what was read |
| RuntimeUpdate.Host.ObserveOld | scripts/runtime_update.py:1062-1083 | passes exactly when the old manifest verifies and both services run its image under an allowed reference |
| RuntimeUpdate.Host.AssertAlreadyDeployed | scripts/runtime_update.py:990-1011 | an idempotent success is a verified manifest whose image both services run over an unchanged database; in a calm run without a signal it is reported exactly when that manifest verifies and both services run its image under its reference |
| RuntimeUpdate.Host.ReusableTarget | scripts/runtime_update.py:1045-1060 | a target manifest is reused only after a rolled-back transaction, with its own image under its own reference |
| RuntimeUpdate.Host.ObservedRef | scripts/runtime_update.py:598-605 | both services report the old manifest reference, or the alias a rolled-back transaction left them on |
| RuntimeUpdate.Host.GitPreflight | scripts/runtime_update.py:507-517 | the checkout is clean and its head is a commit |
| RuntimeUpdate.Host.CheckFullJournal | scripts/runtime_update.py:1014-1025 | the full updater is admitted exactly without a journal or with a loadable closed one |
| RuntimeUpdate.Host.OnTermination | scripts/runtime_update.py:113-118 | a signal during rollback is ignored, otherwise it is remembered |
| RuntimeUpdate.Host.Execute | scripts/runtime_update.py:162-182 | a command runs to its exit status unless interrupted or timed out; a guarded run is not interrupted by a signal |
| RuntimeUpdate.Host.Command | scripts/runtime_update.py:162-197 | a command that returns normally saw no termination request; a guarded run cannot be terminated by one |
| RuntimeUpdate.Host.ComposeStop | scripts/runtime_update.py:720-737 | stopping leaves images alone and, in a calm run, stops both |
| RuntimeUpdate.Host.ComposeBuild | scripts/runtime_update.py:1106 | a build moves one reference, relabels no image and loses none; in a calm run the reference then names the image of the checkout, labelled, if it is new, with the commit the reference ends in |
| RuntimeUpdate.Host.StoreBuilt | scripts/runtime_update.py:1106 | what a build does to the image store |
| RuntimeUpdate.Host.TagImage | scripts/runtime_update.py:744-751 | tagging moves one reference, to an image that exists |
| RuntimeUpdate.Host.ImageBinding | scripts/runtime_update.py:569-583 | what it returns is what the reference names, in shape; the digest is the one Docker reports or, where that inspection fails, the identity |
| RuntimeUpdate.Host.CurrentImageExists | scripts/runtime_update.py:977-987 | a failed inspection reads as no image, even with a termination request pending; a reported image exists and no request was pending; in a calm run an absent image is reported absent |
| RuntimeUpdate.Host.AssertServices | scripts/runtime_update.py:586-595 | passing means both containers run the reference, identity, mount and revision asked for |
| RuntimeUpdate.Host.LocalHealth | scripts/runtime_update.py:771-789 | running services pass in a calm run |
| RuntimeUpdate.Host.DatabaseSnapshot | scripts/runtime_update.py:434-498 | the snapshot is the database |
| RuntimeUpdate.Host.AssertDatabaseUnchanged | scripts/runtime_update.py:501-504 | passing means same hash and same stat |
| RuntimeUpdate.Host.ReadPointer | scripts/runtime_update.py:792-807 | the pointer read is the one on disk and a commit |
| RuntimeUpdate.Host.VerifyPointer | scripts/runtime_update.py:824-828 | passing means the pointer on disk is that commit |
| RuntimeUpdate.Host.VerifyExistingManifest | scripts/deployment_manifest.py:214-259 | a verified manifest names the commit, its image revision and the current database |
| Deployment.PreflightJournalAccepted | scripts/runtime_update.py:663-717 | every first journal has the loader shape; the loader takes it if and only if the database time stamps are not before 1970 and a reused manifest records a digest; `Host.NewDeployment`, `Host.Recover` and `Host.History` carry this to every later journal |
| Deployment.PreEpochJournalRejected | scripts/runtime_update.py:297-397 | a database with any time stamp before 1970 yields a live journal that no recovery can load |
| Deployment.TargetIsNotAlias | scripts/runtime_update.py:663-717 | the reference a deployment builds is never the alias its rollback needs |
| Deployment.AfterLastColonIs | scripts/runtime_update.py:762-768 | what follows the last colon of a reference is its tag |
| Deployment.BuildsSource | scripts/runtime_update.py:762-768 | the revision a target image is built with is the source commit |
| ChannelRuntime.EveryWindowWithinBudget | src/wuwaterm/channel_runtime.py:123-152 | no sixty-second window, wherever it begins, contains more started calls than the budget |
| ChannelRuntime.ClosedMinuteExceedsBudget | src/wuwaterm/channel_runtime.py:84-161 | the window is half-open: one runtime, reserving a full budget, starting every call of it and releasing, at second 0 and again at 60, starts two budgets in one closed minute, whatever the budget |
| ChannelRuntime.FillBudget | src/wuwaterm/channel_runtime.py:84-161 | a task alone in the runtime can reserve, start and release a whole budget at one instant |
| ChannelRuntime.ChannelRuntime.Bounds | src/wuwaterm/channel_runtime.py:84-166 | in every reachable state the active and queue bounds hold, once all admissions have left only started calls are remembered, and every window keeps the budget |
| ChannelRuntime.ChannelRuntime.constructor | src/wuwaterm/channel_runtime.py:58-82 | the empty runtime satisfies the invariant |
| ChannelRuntime.ChannelRuntime.PruneBudget | src/wuwaterm/channel_runtime.py:123-129 | forgets exactly the started calls a minute old, and no allowance |
| ChannelRuntime.ChannelRuntime.Reserve | src/wuwaterm/channel_runtime.py:84-99 | refuses exactly for a full queue or an overdrawn budget, in that order; otherwise a fresh reservation worth exactly the calls asked for |
| ChannelRuntime.ChannelRuntime.Enqueue | src/wuwaterm/channel_runtime.py:90-99 | the accepted reservation changes no other allowance |
| ChannelRuntime.ChannelRuntime.JoinQueue | src/wuwaterm/channel_runtime.py:90-98 | a number never used before joins the queue |
| ChannelRuntime.ChannelRuntime.BudgetRemaining | src/wuwaterm/channel_runtime.py:104-113 | the clamp never bites: the answer is the budget less the tokens |
| ChannelRuntime.ChannelRuntime.Grant | src/wuwaterm/channel_runtime.py:27-35 | a permit moves from the semaphore to one queued task |
| ChannelRuntime.ChannelRuntime.Activate | src/wuwaterm/channel_runtime.py:135-138 | a granted task moves from the queue to the active set; the clamp never bites |
| ChannelRuntime.ChannelRuntime.Enter | src/wuwaterm/channel_runtime.py:135-138 | queue and active set still count what they hold, and nobody appears or disappears |
| ChannelRuntime.ChannelRuntime.CancelWait | src/wuwaterm/channel_runtime.py:131-133 | a cancelled wait returns its permit and all its tokens, and nobody else loses any |
| ChannelRuntime.ChannelRuntime.LeaveQueue | src/wuwaterm/channel_runtime.py:131-132 | exactly one task leaves, with the permit it may have been granted |
| ChannelRuntime.ChannelRuntime.ReleaseBudget | src/wuwaterm/channel_runtime.py:163-166 | exactly one reservation loses its tokens |
| ChannelRuntime.ChannelRuntime.MarkCallStarted | src/wuwaterm/channel_runtime.py:140-152 | consumes the first unused token of an entered reservation, and fails exactly when there is none |
| ChannelRuntime.ChannelRuntime.ReleaseActive | src/wuwaterm/channel_runtime.py:154-161 | unused tokens go, started calls stay on record, the permit returns |
| ChannelRuntime.ChannelRuntime.DropUnused | src/wuwaterm/channel_runtime.py:154-159 | no started call is forgotten and no other allowance touched |
| ChannelRuntime.ChannelRuntime.LeaveActive | src/wuwaterm/channel_runtime.py:160-161 | exactly one task leaves the active set and its permit returns; the clamp never bites |
| ChannelPost.RequiredCalls | src/wuwaterm/channel.py:617-624 | a short post reserves one call, or two for the plain fallback where the budget has them; a long one at least one and at most one for every 1500 units and one more |
| ChannelPost.NoMoreChunks | src/wuwaterm/channel.py:617-624 | chunks three quarters full are not many |
| ChannelPost.Admit | src/wuwaterm/channel.py:632-650 | an edit yields exactly when it would eat into the headroom, never on an empty window, and an admitted one leaves the headroom; at one clock reading a post is admitted exactly when the queue and the budget have room |
| ChannelPost.OtherTasks | src/wuwaterm/channel_runtime.py:84-166 | no steps of other tasks, in any order at any clock readings, touch a reservation |
| ChannelPost.RunStage | src/wuwaterm/channel.py:692-740 | a stage uses at most one token of its own reservation, and succeeds when nothing stops it |
| ChannelPost.TranslateChannelInput | src/wuwaterm/channel.py:976-1039 | the calls of a post never outrun its reservation; with every stage succeeding the post is translated |
| ChannelPost.WaitTurn | src/wuwaterm/channel_runtime.py:27-35 | the wait ends inside with the whole allowance, or outside with nothing reserved; with a free permit and nothing else happening, inside |
| ChannelPost.HandlePost | src/wuwaterm/channel.py:617-760 | from reservation to release, among any other tasks: no call lacks a token, and nothing of the reservation remains; with nobody else about, a free permit and every stage succeeding, a post is translated if and only if the queue and the budget have room for it and an edit leaves the headroom |
| ChannelEdit.EditKeepsTrack | src/wuwaterm/channel.py:1288-1428 | after success or retained leftovers the tracked ids are the replies showing chunk 0, 1, ... in order, then exactly the leftovers; after an unavailable target only leftovers stay tracked; each leftover had its deletion refused or gated; when gated or raising, no visible reply of the bot is untracked, except as GatedOrphans says |
| ChannelEdit.EditEnds | src/wuwaterm/channel.py:1288-1479 | how any edit ends, by the world and its questions alone: gated if and only if the last question found the gate of an edit or a send closed, raising if and only if the last question was an edit or a send that failed, unavailable if and only if the very first edit found its reply gone or not editable, and in every other run all chunks shown; the questions are in order: replies tried in their tracked order, a send only after all of them, each question to Telegram behind its open gate, a reply that cannot be edited up for deletion at once, and no deletion asked of one that was edited or is gone |
| ChannelEdit.EditFromEnds | src/wuwaterm/channel.py:1288-1428 | the same reasons for the outcome from any chunk on |
| ChannelEdit.ShowChunkEnds | src/wuwaterm/channel.py:1320-1404 | how showing one chunk ends, by the last answers |
| ChannelEdit.EditPassEnds | src/wuwaterm/channel.py:1320-1366 | how trying the remaining replies ends, by the last answers |
| ChannelEdit.MissedEnds | src/wuwaterm/channel.py:1344-1388 | a missed reply ends the run only if it is the very first, which is then lost |
| ChannelEdit.EditFromOrderly | src/wuwaterm/channel.py:1288-1428 | the questions of a run are in order from any chunk on |
| ChannelEdit.PassOrdered | src/wuwaterm/channel.py:1320-1366 | trying replies asks in order and leaves the untried ones |
| ChannelEdit.SentOrdered | src/wuwaterm/channel.py:1367-1404 | a send is asked only after every tracked reply was tried |
| ChannelEdit.DeletedOrderly | src/wuwaterm/channel.py:1431-1479 | deletions are asked one by one behind their gates |
| ChannelEdit.DeletedAsks | src/wuwaterm/channel.py:1431-1479 | deleting asks about deletions only |
| ChannelEdit.GatedOrphans | src/wuwaterm/channel.py:1392-1404 | an edit that is gated or raises orphans a reply if and only if one of its sends was answered and the reply, visible at the start, was up for deletion and left in place: the gate was closed on it or Telegram refused |
| ChannelEdit.GatedOrphanExample | src/wuwaterm/channel.py:1288-1404 | such a run |
| ChannelEdit.LeftoversJustified | src/wuwaterm/channel.py:1431-1479 | for each leftover of an edit, its log holds the refused deletion or the closed gate |
| ChannelEdit.EditFromGood | src/wuwaterm/channel.py:1288-1428 | the same promises from any chunk on |
| ChannelEdit.EditPassGood | src/wuwaterm/channel.py:1320-1366 | trying the remaining replies keeps every reply in exactly one list, however each failed edit is classified |
| ChannelEdit.MissedGood | src/wuwaterm/channel.py:1344-1388 | a reply that cannot be edited is deleted or kept as a leftover, never forgotten, even when one that is gone is classified as uneditable |
| ChannelEdit.FinishGood | src/wuwaterm/channel.py:1409-1428 | the final deletion and index write leave the tracked list the promises describe |
| ChannelEdit.DeletedGood | src/wuwaterm/channel.py:1431-1479 | deletion only removes what it was given and reports everything it leaves visible |
| ChannelEdit.DeletedJustified | src/wuwaterm/channel.py:1431-1479 | for each reported reply the log of the run holds the question that failed: its deletion refused or the gate closed on it |
| ChannelEdit.Editor.DeleteReplyChunks | src/wuwaterm/channel.py:1431-1479 | the loop computes the deletion its lemmas speak of |
| ChannelEdit.Editor.EditOne | src/wuwaterm/channel.py:1320-1366 | the inner loop computes the pass its lemmas speak of |
| ChannelEdit.Editor.SendOne | src/wuwaterm/channel.py:1367-1404 | the `else` branch sends once, remembers at once |
| ChannelEdit.Editor.EditReplyChunks | src/wuwaterm/channel.py:1288-1428 | the whole loop computes the edit its lemmas speak of; without tracked replies it changes nothing |
| TelegramText.SplitGood | src/wuwaterm/telegram_text.py:18-34 | lossless; chunks within the limit for limits of at least two; every chunk but the last at least three quarters full |
| TelegramText.SplitPrefersBoundaries | src/wuwaterm/telegram_text.py:18-59 | a chunk that more text follows ends at the last boundary at or after three quarters of the limit; it ends elsewhere only where there is none, and then one character more would not fit |
| TelegramText.CutPrefersBoundary | src/wuwaterm/telegram_text.py:37-59 | one cut: the end of the text if the rest fits, else the last boundary near the limit, else the hard limit |
| TelegramText.CutIsGood | src/wuwaterm/telegram_text.py:37-59 | one cut fits, unless a single wide character does not |
| TelegramText.LimitOneIsTooSmall | src/wuwaterm/telegram_text.py:37-59 | at limit one an astral character breaks the bound |
| TelegramText.BestCutIndex | src/wuwaterm/telegram_text.py:37-59 | the scan finds the cut the lemmas speak of |
| TelegramText.SplitTelegramText | src/wuwaterm/telegram_text.py:18-34 | the loop computes the split the lemmas speak of, and ends |
| PlainText.SplitPlainText | src/wuwaterm/application.py:294-329 | chunks non-empty and within the limit; only newlines lost; a line that fits stays whole; a chunk ends only where the next line would not fit; never empty for non-empty text |
| PlainText.AddLine | src/wuwaterm/application.py:315-327 | one line consumed, hard-wrapped if too long, no earlier line broken |
| PlainText.AddShort | src/wuwaterm/application.py:319-327 | a line taken in whole, after a flush only if it does not fit |
| PlainText.Nonempty | src/wuwaterm/application.py:329 | dropping empty chunks loses no text and keeps the packing |
| PlainText.LinesJoin | src/wuwaterm/application.py:315 | splitting at newlines and joining again is the identity |
| ChatSettings.ChatSettings.Mutate | src/wuwaterm/settings.py:204-249 | for every combination of failures: the file changes by exactly this change, if it can be read and saved, and otherwise not at all; the call returns if and only if it could read and nothing it needs failed, and then memory equals the file; after a failure a denial holds in memory, and a grant leaves memory equal to what was read, or as it was |
| ChatSettings.ChatSettings.Locked | src/wuwaterm/settings.py:216-234 | under the lock the candidate is saved and published, or nothing reaches the disk; the result says exactly which |
| ChatSettings.ChatSettings.SetPublic | src/wuwaterm/settings.py:255-262 | closing a chat denies it at once; a return means exactly this flag changed, on disk too, and without a failure over a readable file it returns |
| ChatSettings.ChatSettings.Allow | src/wuwaterm/settings.py:268-275 | a return means exactly this chat was added, on disk too, and without a failure over a readable file it returns |
| ChatSettings.ChatSettings.Disallow | src/wuwaterm/settings.py:277-283 | the chat is denied whatever fails; a return means exactly this chat was removed, and without a failure over a readable file it returns |
| ChatSettings.ChatSettings.constructor | src/wuwaterm/settings.py:114-120 | a new process starts with exactly what any process saved; from any other file, with the readable rows, the last flag of a chat winning, and from none with nothing |
| ChatSettings.ReadingKeeps | src/wuwaterm/settings.py:126-171 | lenient reading never fails: of the two members it keeps exactly the readable rows, the last flag of a chat winning, and of anything else nothing; strict reading finds the same and fails exactly for a file that is there but is not two members of readable rows |
| ChatSettings.ChatIdIs | src/wuwaterm/settings.py:35-47 | a string names a chat if and only if it is the number in decimal, give or take blanks around it |
| ChatSettings.StripIs | src/wuwaterm/settings.py:35-47 | stripping takes blanks off both ends and nothing else |
| ChatSettings.ParsePublicIs | src/wuwaterm/settings.py:151-162 | for each chat the last flag is kept, strict reading failing exactly on an unreadable row |
| ChatSettings.ParseAllowedIs | src/wuwaterm/settings.py:163-170 | the allowed chats kept are exactly those named, strict reading failing exactly on an unreadable item |
| ChatSettings.ConcurrentWriters | src/wuwaterm/settings.py:204-249 | any processes, any order, any failures: the file is the replay of the committed changes, no returned change is lost, and each process denies what its own last call denied |
| ChatSettings.LastWordDecides | src/wuwaterm/settings.py:268-283 | after any run a chat is allowed according to the last committed word about it |
| ChatSettings.LastSettingDecides | src/wuwaterm/settings.py:255-262 | and public according to the last committed setting |
| ChatSettings.SaveReadRoundTrip | src/wuwaterm/settings.py:126-202 | what one process saves, any process reads back exactly |
| ChatSettings.CanonicalRoundTrip | src/wuwaterm/settings.py:35-47 | every chat id survives its trip through a JSON key |
| ChatSettings.Payload | src/wuwaterm/settings.py:182-187 | the payload holds every flag and every allowed chat, and nothing else |
| TermSpans.FindOccurrences | src/wuwaterm/sentence.py:295-307 | every boundary-valid occurrence, overlapping ones included, in order |
| TermSpans.CandidateSpans | src/wuwaterm/sentence.py:292-307 | every occurrence of every dictionary surface and nothing else |
| TermSpans.Choose | src/wuwaterm/sentence.py:313-325 | disjoint, and every candidate left out overlaps a chosen one that takes precedence |
| TermSpans.SelectSpans | src/wuwaterm/review.py:362-391 | the selection from left to right: complete, disjoint and maximal |
| TermSpans.LongestWins | src/wuwaterm/sentence.py:227-243 | wherever a surface stands unglued to an ASCII letter or digit, it is chosen or overlaps a chosen span that is longer, or as long and earlier in the dictionary, or of the same surface and further left |
| TermSpans.ChosenStands | src/wuwaterm/sentence.py:227-243 | what is chosen is a surface standing in the text, unglued to an ASCII letter or digit |
| TermSpans.SelectionUnique | src/wuwaterm/review.py:362-391 | dictionary and text determine the selection: there is only one |
| TermSpans.SortedApart | src/wuwaterm/sentence.py:327 | sorted by start, the chosen spans follow one another |
| Placeholders.Window | src/wuwaterm/sentence.py:246-250 | a token with its two leading characters cannot straddle a placeholder edge |
| Placeholders.MarkFindsHole | src/wuwaterm/sentence.py:176-194 | wherever such a mark occurs in a text with placeholders, a placeholder of that token stands around it |
| Placeholders.OccurrenceIsHole | src/wuwaterm/sentence.py:176-194 | a placeholder occurs exactly where it was put, never by accident and never inside a longer number |
| Placeholders.CountTells | src/wuwaterm/sentence.py:179-180 | counting occurrences tells whether a placeholder stands exactly once |
| Placeholders.ReplaceFills | src/wuwaterm/sentence.py:193 | replacing a placeholder fills its place and nothing else |
| Dictionary.LockablesAre | src/wuwaterm/sentence.py:625-660 | what can be locked is exactly every form of at least two characters of an entry with two forms of one line, with the official pair of the first entry that offers it, and no surface twice |
| Dictionary.EligibleLockableSources | src/wuwaterm/sentence.py:625-660 | the two loops compute the list the lemmas speak of |
| Sentence.LockedRestoresIff | src/wuwaterm/sentence.py:176-342 | exactly when locking and restoring the unmodified text gives each chosen span in its official form and every other character unchanged, in either direction, for any dictionary and token: with those before it replaced, each placeholder occurs once and is found where it was put, or so little early that its official form reads the same |
| Sentence.LockedRestores | src/wuwaterm/sentence.py:176-342 | a token that does not occur in the official text is enough for that, for any number of locks: then restoring never raises |
| Sentence.ExactlyWhen | src/wuwaterm/sentence.py:176-194 | the same for any sequence of names and official forms: the loop gives the official text if and only if each name stands alone in its turn |
| Sentence.NoRepair | src/wuwaterm/sentence.py:176-194 | once one replacement has gone wrong, no later one leads back to the official text |
| Sentence.OnceIsEnough | src/wuwaterm/sentence.py:179-193 | standing alone is just occurring once, unless the text before the place breaks off one or two characters short of the placeholder |
| Sentence.RestoreIff | src/wuwaterm/sentence.py:176-194 | for a translation that moved, dropped or repeated placeholders: restoring succeeds exactly when each stands once, and then fills each where it stands |
| Sentence.RestoreLoop | src/wuwaterm/sentence.py:176-194 | the loop computes the restoration the lemmas speak of |
| Sentence.LockTerms | src/wuwaterm/sentence.py:284-342 | the selection, and the text with a numbered placeholder for each chosen span |
| Sentence.CopyWithPlaceholders | src/wuwaterm/sentence.py:328-342 | the copying loop puts one placeholder for each span and keeps the gaps |
| Sentence.GapsLoseNothing | src/wuwaterm/sentence.py:329-341 | putting the spans back gives the text itself |
| Sentence.TranslateOffline | src/wuwaterm/sentence.py:390-392 | without a model, translate returns the text in its official forms exactly when each placeholder stands alone in its turn, so always when the token is not in that text |
| Sentence.PrefixCheckIsNotEnough | src/wuwaterm/sentence.py:176-342 | the check against the source alone does not make restoring safe: for any token there is a terms table of two entries with which locking `ab cd` passes it and restoring raises |
| Sentence.OverlapSlipsThrough | src/wuwaterm/sentence.py:176-342 | nor does it raise whenever it goes wrong: for any token there is a terms table of two entries with which locking two adjacent terms passes the check, each placeholder counts once, and restoring returns another text |
| Overlaps.ReplaceShifted | src/wuwaterm/sentence.py:179-193 | a name that counts once is replaced where it was put, or at an overlap with itself that begins a little before |
| Overlaps.GoesAstray | src/wuwaterm/sentence.py:193 | where the official form does not read the same at such an overlap, the text left is another one, of the same length, still ending in the double underscore of the name |
| Overlaps.AstrayAgain | src/wuwaterm/sentence.py:193 | a further replacement at an overlap does not put right what went wrong before |
| TelegramHtml.RestoredIff | src/wuwaterm/telegram_html.py:78-109 | restoring succeeds if and only if every placeholder stands once and in order, the words bring no markup and no reserved pattern, and the result is valid; the token comparison at the end never decides |
| TelegramHtml.EntityIsToken | src/wuwaterm/telegram_html.py:33-35 | whatever follows, a named, decimal or hexadecimal entity at the front is the first token, told by its characters |
| TelegramHtml.TagIsToken | src/wuwaterm/telegram_html.py:119-131 | whatever follows, a tag at the front is the first token: characters other than quotes and the bracket, and quoted stretches that may hold brackets |
| TelegramHtml.RawIs | src/wuwaterm/telegram_html.py:119-155 | nothing else is a token |
| TelegramHtml.NoTokenVisible | src/wuwaterm/telegram_html.py:134-177 | no visible segment contains an entity or a tag |
| TelegramHtml.ReservedIs | src/wuwaterm/telegram_html.py:36-38 | the reserved pattern is found exactly where such characters stand |
| TelegramHtml.PlaceholderReserved | src/wuwaterm/telegram_html.py:36-38 | so a placeholder of any other run is seen as reserved |
| TelegramHtml.ProtectedRestores | src/wuwaterm/telegram_html.py:78-177 | protecting and restoring is the identity, exactly for clean visible text and valid markup |
| TelegramHtml.RewordedRestores | src/wuwaterm/telegram_html.py:67-109 | whatever the visible segments become, the original tags and entities come back in order |
| TelegramHtml.WellEscaped | src/wuwaterm/telegram_html.py:33-38 | visible text without a bare bracket or ampersand is clean unless it spells a reserved placeholder |
| TelegramHtml.VisibleWeaves | src/wuwaterm/telegram_html.py:134-155 | tokens and visible text together are the whole text |
| TelegramHtml.TokensOfPieces | src/wuwaterm/telegram_html.py:99-109 | tokens put back between clean stretches are the only tokens of the result |
| TelegramHtml.OrderIff | src/wuwaterm/telegram_html.py:78-98 | each placeholder once and at rising positions: that is the original order |
| TelegramHtml.TagEndLoop | src/wuwaterm/telegram_html.py:119-131 | the quote-aware scan for the end of a tag |
| TelegramHtml.StructuralSpans | src/wuwaterm/telegram_html.py:134-151 | the positions of all tags and entities |
| TelegramHtml.Protect | src/wuwaterm/telegram_html.py:158-177 | a numbered placeholder for each token, the visible text untouched |
| TelegramHtml.DeletePlaceholders | src/wuwaterm/telegram_html.py:80-97 | passes exactly when each placeholder stands once and in order, and yields the text without them |
| TelegramHtml.PutBack | src/wuwaterm/telegram_html.py:98-101 | puts each raw token back |
| TelegramHtml.Restore | src/wuwaterm/telegram_html.py:78-109 | the method computes the restoration the lemmas speak of |
| TelegramHtml.VisibleSegments | src/wuwaterm/telegram_html.py:53-65 | never raises on a protected text; the segments are the visible text |
| TelegramHtml.Interleave | src/wuwaterm/telegram_html.py:67-76 | raises exactly on a wrong number of segments, otherwise weaves them with the placeholders |
| LockedHtml.BothLayersRestore | src/wuwaterm/sentence.py:344-373 | locking terms in the visible text and restoring both layers: official forms in place, tag and entity sequence identical; refused exactly for unclean or invalid results |
| LockedHtml.LockHtmlTerms | src/wuwaterm/sentence.py:344-357 | each visible segment locked under its own token, tags and attributes never |
| SentenceRanges.Ranges | src/wuwaterm/review.py:463-499 | the ranges tile the text: ordered, disjoint, each one sentence, no other character than a separator missed |
| SentenceRanges.NoFallback | src/wuwaterm/review.py:497-498 | the last fallback to one range for the whole text is never taken |
| SentenceRanges.CoveredOnce | src/wuwaterm/review.py:440-499 | every character that is not a separator lies in exactly one range |
| SentenceRanges.EverySentenceListed | src/wuwaterm/review.py:463-499 | the ranges are exactly the sentences of the text |
| SentenceRanges.RangesClose | src/wuwaterm/review.py:463-499 | sentences end exactly behind closing characters and never at a decimal point: a range that stops short of the end stops behind one and before none, and inside none is followed by anything but one |
| Mentions.MentionIdInjective | site/lib/manuscript.js:82 | a mention id names one span only |
| Review.ReviewPair | src/wuwaterm/review.py:1073-1188 | refuses exactly the requests that are not reviewable; otherwise one finding for each selected mention, claimed target spans disjoint; evaluated counts the verified, conflicting and to-be-reviewed mentions, not evaluated the others and the meaning of the sentences |
| Review.VerdictMeans | src/wuwaterm/review.py:808-962 | when each verdict is given: verified exactly when one form in question appears free in the region, a conflict exactly when the user chose a form that is nowhere, not evaluated exactly for no term, no region or a form spelt only elsewhere, and a human otherwise; the form is the English or the Chinese one by the direction |
| Review.Coverage | src/wuwaterm/review.py:1163-1170 | the two counts of a report, by the verdicts |
| Review.VerifiedIsHonest | src/wuwaterm/review.py:808-962 | a verified span lies inside the mapped target range and spells the form of a candidate in the target language |
| Review.ClaimsStayApart | src/wuwaterm/review.py:808-962 | no two findings claim overlapping target text |
| Review.HitIsSound | src/wuwaterm/review.py:808-962 | any claimed span lies in its range, spells a questioned form in the target language and was free; a user choice is honoured |
| Review.Claims.Judge | src/wuwaterm/review.py:808-962 | raises exactly for a candidate that is not current; otherwise the verdict on the mapped range and what earlier mentions claimed |
| Review.Claims.Settle | src/wuwaterm/review.py:864-962 | the leftmost free place of the first form appearing is claimed; two forms appearing need review; none: elsewhere, conflict or review |
| Review.JudgeAll | src/wuwaterm/review.py:1144-1161 | each mention judged against what the earlier ones claimed; every used resolution seen |
| Review.CollectPlaces | src/wuwaterm/review.py:866-875 | the free places of every form, and the forms that have one, first one first |
| Review.FreePlaces | src/wuwaterm/review.py:869-873 | all free boundary-valid places of a form in a region, leftmost first |
| Review.NextUnused | src/wuwaterm/review.py:634-640 | the first place nobody claimed |
| Review.FoundElsewhere | src/wuwaterm/review.py:613-623 | true exactly when a form is spelt not wholly inside the region |
| Review.Mappings | src/wuwaterm/review.py:1115-1131 | refuses exactly the alignments that are not acceptable; otherwise those, or sentence pairs |
| Review.CoerceAlignments | src/wuwaterm/review.py:517-562 | accepts exactly what is well formed, in order, apart and cuts no mention |
| Review.AcceptedSpansRead | src/wuwaterm/review.py:502-562 | in an accepted list each span is a non-empty piece of its text and reads as claimed, no two overlap in source or target, and a mention lies wholly in one source span or in none |
| Review.MappedByHolder | src/wuwaterm/review.py:565-577 | a mention is mapped by the one alignment that holds it |
| Review.MappingsInOrder | src/wuwaterm/review.py:565-577 | later mentions never map to earlier target text |
| Review.ById | src/wuwaterm/review.py:1136-1142 | refuses exactly a repeated mention id, otherwise looks up like the list |
| Review.IdsName | src/wuwaterm/review.py:1136-1161 | a choice reaches one mention only |
| ReviewProjection.Project | src/wuwaterm/application.py:788-831 | the findings are a prefix of the sorted ones, by start, longer first, then id; truncated and candidates_truncated are set exactly when something is dropped; the body fits unless no finding is left; and nothing is dropped needlessly: no longer prefix of the capped findings would fit, and when at most one finding is left, neither would it with one candidate or source more |
| ReviewProjection.TrimLoop | src/wuwaterm/application.py:819-830 | the loop ends with the largest body that fits: whatever keeps more of the findings, or more of the last one left, does not |
| ReviewProjection.FirstFitGood | src/wuwaterm/application.py:770-831 | trimming drops only from the end, shortens only the last finding left, and flags it |
| ReviewProjection.FirstFitMaximal | src/wuwaterm/application.py:770-831 | trimming passes every way of dropping off the end, so what keeps more than its result does not fit |
| ReviewProjection.ShrinkIsNext | src/wuwaterm/application.py:770-831 | one round takes the smallest step there is |
| ReviewProjection.MaximalMeans | src/wuwaterm/application.py:819-830 | which is to say: no longer prefix fits, and no fuller last finding |
| ReviewProjection.ToWire | src/wuwaterm/application.py:731-761 | caps candidates and sources and flags it exactly when they cost something |
| ReviewProjection.Wire | src/wuwaterm/application.py:731-761 | at most eight candidates and eight sources of each are kept, first ones first, and the flag is set exactly when that cost anything |
| ReviewProjection.WireShortenedPublishes | src/wuwaterm/application.py:731-785 | a capped and trimmed finding misses nothing but candidates and sources off the end, and says so |
| ReviewProjection.TrimIsLighter | src/wuwaterm/application.py:770-785 | each trimming round drops something, so the loop ends |
| SharedPool.AnyRun | site/lib/shared-pool.js:29-135 | for any requests at any clock readings, backwards ones included: at most one admission a second, and no minute or day overdrawn in any of seven quotas |
| SharedPool.Pool.AdmitRequest | site/lib/shared-pool.js:105-135 | a request in shape is admitted exactly when its answer arrives in time and the statement finds room, and is charged once; a refused one learns why from the totals of all admissions at the second reading: its day used up, a clock behind the last admission, or busy; every other refusal is unavailable or translation disabled, and exactly when |
| SharedPool.ClassifyReasons | site/lib/shared-pool.js:120-133 | the classifying reading of a stored row gives exactly the reason the totals of the log give |
| SharedPool.Pool.Statement | site/lib/shared-pool.js:29-50 | charges exactly when the row has room, and otherwise leaves it alone |
| SharedPool.AdmissionKeeps | site/lib/shared-pool.js:29-50 | one admission more keeps every limit and the stored row stays the totals of its windows |
| SharedPool.FirstKeeps | site/lib/shared-pool.js:29-31 | so does the very first |
| SharedPool.AdmitsIffRoom | site/lib/shared-pool.js:29-50 | nobody is refused but for a second already used or a window the request would overdraw: the conditions hold exactly when every quota the request is charged to has room in the totals of all admissions so far |
| SharedPool.AdmitsMeansRoom | site/lib/shared-pool.js:41-49 | the conditions leave room in every quota the request is charged to, and the update charges each what it costs |
| SharedPool.CarriedIsTotal | site/lib/shared-pool.js:34-40 | a carried counter is the total of the current window |
| SharedPool.StoredIsValid | site/lib/shared-pool.js:60-72 | a stored row passes validation, up to the size of JavaScript integers |
| SharedPool.RetrySuffices | site/lib/shared-pool.js:120-133 | after the waiting time a refusal names, the same request would pass were nobody else admitted |
| SharedPool.BusySuffices | site/lib/shared-pool.js:130-133 | busy: waiting for the next minute, or the next second, is enough |
| SharedPool.ExhaustedSuffices | site/lib/shared-pool.js:120-129 | a day used up: waiting for the next day is enough |
| SharedPool.ExhaustedIsTrue | site/lib/shared-pool.js:124-129 | an exhausted pool is really exhausted for this request |
| Manuscript.RecoverInverse | site/lib/manuscript.js:97-108 | relocation keeps the text and is its own inverse between two drafts |
| Manuscript.RecoverIff | site/lib/manuscript.js:97-108 | between two drafts a span is recovered if and only if it reads its text in the first and lies in a line that stands exactly once in each |
| Manuscript.RecoverSucceeds | site/lib/manuscript.js:97-108 | it is then found at the same distance from the beginning of that line |
| Manuscript.BlocksAreLines | site/lib/manuscript.js:88-95 | the blocks are exactly the whole lines, each with its offsets |
| Manuscript.RecoverInjective | site/lib/manuscript.js:97-108 | two spans of one draft never land on the same place |
| Manuscript.ReconcileChoices | site/lib/manuscript.js:200-206 | the reconciled choices, with colliding ones put back to pending |
| Manuscript.ApplicableDiffer | site/lib/manuscript.js:200-206 | applicable choices name pairwise distinct mentions |
| Manuscript.ApplicableIsBacked | site/lib/manuscript.js:178-206 | an applicable choice is for the same direction and scope, and names a finding of a trusted, complete, fresh report on an unchanged dictionary; an official pair is still a candidate |
| Manuscript.ApplicableIff | site/lib/manuscript.js:178-206 | and a choice is applicable exactly then: direction, place, scope, report, complete and equal basis, finding, decision, and no other choice pointing there |
| Manuscript.SameBasisIff | site/lib/manuscript.js:74-81 | the same basis is the same in every part, and complete |
| Manuscript.SourceBlocks | site/lib/manuscript.js:88-95 | the blocks of a draft, with their offsets |
| Manuscript.BlocksPlaced | site/lib/manuscript.js:88-95 | blocks stand one after another, a newline between each two |
| TermsDiff.DiffIsPatch | scripts/diff_terms_db.py:179-238 | old rows less removed and changed-from plus added and changed-to are the new rows; added and removed are disjoint |
| TermsDiff.GainsAndLosses | scripts/diff_terms_db.py:179-238 | what is gained is exactly added or changed to, what is lost exactly removed or changed from |
| TermsDiff.EmptyDiff | scripts/diff_terms_db.py:179-238 | the diff is empty exactly for equal row sets |
| TermsDiff.CategoryDelta | scripts/diff_terms_db.py:219-223 | as row sets, each category grows by its added less its removed rows |
| TermsDiff.CountChangeIff | scripts/diff_terms_db.py:219-223 | the reported count change of a category is its rows added less its rows removed exactly when as many of its rows are repetitions before as after; counted with repetitions, exactly when those the report does not list balance |
| TermsDiff.SurplusIs | scripts/diff_terms_db.py:219-223 | the repetitions of a category are never negative in number, and none exactly when no row of it is repeated |
| TermsDiff.CountChange | scripts/diff_terms_db.py:219-223 | so for a category without repeated rows the reported change is added less removed rows, and neither list repeats a row of it |
| TermsDiff.DuplicatesGoUnseen | scripts/diff_terms_db.py:188-223 | with a duplicate row a count can change though the diff is empty |
| TermsDiff.DiffSnapshots | scripts/diff_terms_db.py:179-217 | the report over all source keys: added, removed, changed and ambiguous, exactly |
| TermsDiff.ChangedMeans | scripts/diff_terms_db.py:195-199 | a change is reported exactly for a source key with one row on each side, and rows that differ |
| TermsDiff.AmbiguousMeans | scripts/diff_terms_db.py:200-208 | a key is ambiguous exactly when it has several rows on both sides and not the same ones |
| TermsDiff.DiffKey | scripts/diff_terms_db.py:188-217 | the share of one source key |
| TermsDiff.Missing | scripts/diff_terms_db.py:213-217 | the rows of one key whose pair the other side lacks |
| TermsDiff.SourceMap | scripts/diff_terms_db.py:165-172 | the rows of each source key |
| TermsDiff.PairLookup | scripts/diff_terms_db.py:175-176 | the rows of one key by their pair |
| ReplySchema.SaveLoadRoundTrip | src/wuwaterm/channel_reply_schema.py:25-72 | loading what was saved keeps exactly the entries still alive |
| ReplySchema.RowRoundTrip | src/wuwaterm/channel_reply_schema.py:52-72 | each written row reads back as itself |
| ReplySchema.ParsesIff | src/wuwaterm/channel_reply_schema.py:52-72 | a row is read exactly when it holds whole numbers, a finite time and at least one reply |
| ReplySchema.LoadingKeeps | src/wuwaterm/channel_reply_index.py:411-442 | from any payload, malformed rows and all, loading keeps the last living row of each key and nothing else |
| ReplySchema.ParsePayload | src/wuwaterm/channel_reply_schema.py:25-49 | refuses exactly unsupported payloads and, when strict, malformed rows; otherwise the readable rows and whether any was malformed |
| ReplySchema.BuildPayload | src/wuwaterm/channel_reply_index.py:506-519 | exactly one row for each entry |
| ReplyIndex.ReplyIndex.OneProducer | src/wuwaterm/channel_reply_index.py:310-348 | at most one unfinished producer exists for a post |
| ReplyIndex.AnyRun | src/wuwaterm/channel_reply_index.py:107-402 | any interleaving of users, saver, token pruning and shutdown flushes keeps the invariant, so single flight holds throughout |
| ReplyIndex.Restart | src/wuwaterm/channel_reply_index.py:411-442 | a restart loses nothing: after a save that landed, an index constructed from the file, with no smaller a cap, holds exactly the living entries and answers `get_many` as the old one would, from then on |
| ReplyIndex.ReplyIndex.FileIsAlive | src/wuwaterm/channel_reply_index.py:411-480 | when the saver is idle after a write that landed, the living rows of the file are exactly the living entries |
| ReplyIndex.ReplyIndex.FreshAnswersAlike | src/wuwaterm/channel_reply_index.py:411-480 | so those rows answer `get_many` as the running index does at every later time |
| ReplyIndex.ReplyIndex.ClaimOriginal | src/wuwaterm/channel_reply_index.py:310-330 | the first claim produces; a claim during its flight waits for its event; done exactly for a tracked post or a live sighting |
| ReplyIndex.ReplyIndex.FinishOriginal | src/wuwaterm/channel_reply_index.py:343-348 | only a producer withdraws its own claim, and its waiters wake |
| ReplyIndex.ReplyIndex.BeginEdit | src/wuwaterm/channel_reply_index.py:245-262 | while a token is held, a token drawn here is larger than all before it; the held one is the largest |
| ReplyIndex.ReplyIndex.IsLatestEdit | src/wuwaterm/channel_reply_index.py:264-271 | latest exactly for the held, unexpired token, which is the largest registered |
| ReplyIndex.ReplyIndex.PruneTokens | src/wuwaterm/channel_reply_index.py:273-290 | living tokens go only at the cap, oldest first |
| ReplyIndex.ReplyIndex.RememberMany | src/wuwaterm/channel_reply_index.py:107-123 | the entry is set, the sighting forgotten, the table trimmed, the newest snapshot waiting to be saved |
| ReplyIndex.ReplyIndex.GetMany | src/wuwaterm/channel_reply_index.py:139-151 | the living replies; dropping an expired entry changes no later answer |
| ReplyIndex.ReplyIndex.Forget | src/wuwaterm/channel_reply_index.py:153-154 | the entry goes and the snapshot without it waits to be saved |
| ReplyIndex.ReplyIndex.Prune | src/wuwaterm/channel_reply_index.py:191-196 | entries and sightings trimmed, saved exactly when entries changed |
| ReplyIndex.ReplyIndex.RememberObserved | src/wuwaterm/channel_reply_index.py:156-164 | the sighting is recorded and the sightings trimmed |
| ReplyIndex.ReplyIndex.TrimObserved | src/wuwaterm/channel_reply_index.py:216-233 | expired sightings go, living ones only at the cap, oldest first |
| ReplyIndex.ReplyIndex.TrimEntries | src/wuwaterm/channel_reply_index.py:198-214 | expired entries go, living ones only at the cap, oldest first; tokens and sightings follow their entries |
| ReplyIndex.ReplyIndex.ForgetKey | src/wuwaterm/channel_reply_index.py:235-243 | a post leaves every table |
| ReplyIndex.ReplyIndex.Save | src/wuwaterm/channel_reply_index.py:457-464 | the newest snapshot replaces the one waiting |
| ReplyIndex.ReplyIndex.SaveInline | src/wuwaterm/channel_reply_index.py:444-456 | without a running loop the write has ended when the call returns |
| ReplyIndex.ReplyIndex.TakePending | src/wuwaterm/channel_reply_index.py:466-472 | the saver takes the waiting snapshot, or ends |
| ReplyIndex.ReplyIndex.WriteEnds | src/wuwaterm/channel_reply_index.py:473-504 | the file changes exactly when the write reaches it |
| ReplyIndex.ReplyIndex.Flush | src/wuwaterm/channel_reply_index.py:368-402 | at shutdown the current entries are written last |
| ReplyIndex.ReplyIndex.constructor | src/wuwaterm/channel_reply_index.py:411-442 | start-up keeps the readable living rows, trimmed to size |
| ReplyIndex.DropOldest | src/wuwaterm/channel_reply_index.py:205-213 | dropping the oldest until the cap is met |

## Left out

- RuntimeUpdate.Host.Command: command output, time limits, error codes and messages, and the killing of an interrupted child are not modelled, only success, failure, interruption, death and a remembered termination request.
- RuntimeUpdate.Host.DatabaseSnapshot: the database's provenance and schema checks are one fingerprint, the hash standing for the contents; SHA-256 collisions are not considered.
- RuntimeUpdate.Host.ComposeBuild: what a build makes of a checkout is an identity given beforehand; layers, caches and the network are not modelled.
- RuntimeUpdate.Host.SetJournal: JSON text, file permissions, symbolic links and directory syncs are not modelled; a replacement is all or nothing.
- RuntimeUpdate.Host.CloseRolledBack: states the facts at the moment of the write; when that write's own error is reported after the file changed, the handler stops both services afterwards. After a pointer change during rollback the code does not compare the database again, so neither does the statement.
- RuntimeUpdate.Host.Elsewhere: between runs, nothing outside is taken to move the pointer, manifests or images while a journal is open; the full updater, once admitted, may change them.
- RuntimeUpdate.Host.ComposeUp: within a run, containers change only through `docker compose`; a container crashing by itself after its probe is not modelled.
- ChannelRuntime.ChannelRuntime.Reserve: the clock is read once where the code reads it twice; the second reading is never looked at again.
- ChannelPost.TranslateChannelInput: the model's replies, retries inside one call and the texts sent to it are arbitrary outcomes.
- ChannelEdit.EditKeepsTrack: a sent reply always has an id; an answer that an edit was applied, or that a message was not found, is taken to be true; an exception that escapes the edit, among them the re-raised error of a rejected HTML edit, is an edit or a send that failed, and the repeated gate of a send that waits out a flood limit is not asked apart. Trimming of the index by age and size is `ReplyIndex`'s.
- ReplyIndex.ReplyIndex.BeginEdit: edit delivery locks are not modelled.
- ReplyIndex.ReplyIndex.WriteEnds: the wait for a write is its outcome; a cancelled write may land, before any later one.
- ReplySchema.SaveLoadRoundTrip: Python's limits on huge integers and JSON's rounding of floats are not modelled; expiry times are exact.
- ChatSettings.SaveReadRoundTrip: the JSON text and key order are not modelled; a rename that raises is taken to have left the old file.
- TelegramText.BestCutIndex: `int(limit * 0.75)` is taken as the exact floor, which floating point gives for every limit below 2**53.
- Sentence.LockTerms: text preparation, speaker prefixes, the exact-match shortcut and the cache of the terms table are not modelled; the dictionary is any list, of which `Dictionary.LockablesAre` says what the code makes it.
- TelegramHtml.Restore: whether markup is valid for Telegram is a parameter.
- SentenceRanges.Ranges: `str.isdigit` is a parameter; the older `_sentence_ranges` is the case in which no character is a digit.
- Review.ReviewPair: the grouping and ordering of candidates and the hashes of texts and dictionary are inputs, and the error codes of a refusal are not told apart.
- ReviewProjection.Project: the size of a body in bytes is an arbitrary function, and sizes need not shrink as things are dropped.
- SharedPool.Pool.Statement: SQLite is the one conditional statement; a clock before 1970 fails its table's checks.
- Manuscript.ReconcileChoices: scopes are compared as values where the code compares their JSON text; the reasons shown to the writer are not modelled.
- TermsDiff.DiffSnapshots: metadata differences and the order of the report are not modelled.
- The frozen first review path, report comparison, workfile parsing, the simple rate limiters and caches, and fuzzy lookup: they would add easier versions of what is here, or have no exact specification.
- Telegram and HTTP transport, the model itself, SQLite, Unicode normalisation, logging, credentials, desktop client, web pages and packaging.
