# Verified model of the agent platform's core

This project models the parts of the agent platform that hold state machines, protocols and string or tree
algorithms, and proves what the rest of the platform relies on.

- **Role store.** Role files live in a real directory tree; callers see a flat map. `Paths` cleans names,
  `FileSystem` is the tree and the calls on it, `RoleStore` proves which sequences of operations make the tree
  refine the map, `RoleListing` is what callers read, `RoleCreation` the all-or-nothing creation,
  `RoleClients` the operations step by step on the disk, `RoleArchive` export and import.
- **Rate limiter.** `RateLimiter`: lazy refill, one bucket per agent, and the idle sweep.
- **Stream writer.** `StreamGroup` and `WriterProtocol` model the consumer group, crashes and failures as a
  state machine; `ChWriter` is the writer's own loops, shown to be the runs of that machine that `WriterScripts`
  gives, and to do to the world what `WriterOutcome` says without them.
- **Operator.** `RoleReader` reads a role from the role store's tree; `SkillKeys` is the key
  codec; `Substitution`, `Template` and `AgentPrompt` are the placeholders, their laws and the hash;
  `ReconcileSteps` has the thirteen steps as single writes on a store, `Reconcile` the theorems about whole
  reconciles, `ReconcileOutcome` what one leaves, object by object, `Operator` the step methods; `RoleWatcher` the
  polling watcher; `MemoryExpansion` the memory limit. `AgentFiles` joins the role store, the reading, the
  reconcile and the pod's mounts.
- **Edit log.** `Replay`: fast reconstruction against full replay over a timeline.
- **Workspace tree.** `Explorer` is the browser's tree, `Workspace` the walk over the disk, `GitStatus` the
  reading of git's report.
- **WebSocket hubs.** `HubProtocol` is the interleaved machine, `Pusher` the hub object.
- `Text` and `Wrappers` hold what several of these share: the order of strings, splitting, searching, options.

`dafny verify dfyconfig.toml` checks everything.

An operation that changes state is a method proved equal to a function of the state before it, and the theorems
are about that function. Nondeterminism that the code does not control (the order of a Go map, the clock, which
call fails) is a parameter or an arbitrary choice, so a theorem holds for all of it.

Where a promise does not hold of the code, the condition under which it does is proved as an if-and-only-if, or
the failure is shown by a concrete input, or both:

- A rejected rename of anything but a directory can leave an empty directory: exactly stray renames do
  (`StepRefinesIff`, `RunRefinesIff`; `StrayRenameBreaksCoherence`, `StrayRenameIsSeen`). Renames of directories are not
  modelled; renaming `a` to `a/b/c`, for one, makes `a/b` and then fails.
- A delete or a rename in a role whose metadata cannot be read answers false although the file has gone or moved, and a
  put in a role whose metadata exist but cannot be read although it has been written (`DeleteOutcome`, `RenameOutcome`,
  `PutOutcome`).
- Creating a role from a request with two names for one file depends on the order of a map, exactly if their texts
  differ (`CreateIsDeterministicIff`; `AliasesDisagree`).
- An exported archive restores its role exactly if no file name holds a backslash (`ExportImportRestoresIff`).
- The idle sweep is invisible exactly if `burst <= 0` or `burst <= 5 * rpm` (`SweepUnobservableIff`; `SweepObserved`).
  The comment at internal/gateway/ratelimit/token_bucket.go:91 does not mention the condition.
- A failed dead-letter write loses a batch, because it is acknowledged anyway; nothing else loses one
  (`NoRunLosesIff`; `FailedDeadLetterLoses`).
- Repositories or an id can form a placeholder: exactly if they touch one that is replaced later
  (`PromptIsOnePassIff`; `RepositoriesCanFormPlaceholder`). The order of the replacements and repeating them have exact
  conditions of their own (`OrderIsIrrelevantIff`, `ResolvingTwiceIff`).
- The prompt hash can miss a change: exactly for which data none goes unnoticed is `EveryChangeShowsIff`
  (`HashMissesChange`).
- Skill paths can share a key. Exactly if their contents differ, one is lost (`MountRestoresIff`;
  `SharedKeyLosesContent`), the stored data depend on the order of a map (`SkillsDataIsUniqueIff`), retries do not
  converge (`RetryConvergesIff`) and repeating a full reconcile can change the cluster (`FullReconcileIsStableIff`).
- Not every file of a role reaches its agent: a well-known name can be shadowed by the same name in other letters or be
  empty, a skill can share its key with another, and a name that is no ConfigMap key (a file in a directory of its own,
  such as `docs/notes.md`) stops every reconcile before the Deployment (`EveryFileReachesIff`, `PutReachesAgent`;
  `SharedKeyHidesSkill`, `NestedFileBlocks`, `NestedFileIsRefused`).
- The fast replay differs from the full one exactly when it falls back on a later snapshot (`FastIsFullIff`), and a
  reconstruction at a moment is exact exactly on a timeline in the order of time (`ExactForeverIff`;
  `FractionsSortEarly`).
- The first line of git's report is misread when it begins with a blank (`SeenIff`, `FlagIff`; `ShiftedLine`).
- A memory limit of 0 is never raised (`ZeroIsGrantedForever`); every larger one below the cap is (`GrantRaises`).

## Model

| member | source | states |
|---|---|---|
| Paths.AcceptedIff | internal/backend/k8sclient/role_fs.go:94-105 | a name passes the check exactly when it is relative and no prefix of its components climbs above where it started; `..` inside is fine as long as it stays in |
| Paths.JoinStaysUnder | internal/backend/k8sclient/role_fs.go:94-109 | joining an accepted name below any directory and cleaning the result gives a normal path at or under that directory, so no accepted name reaches outside a role |
| Paths.PrintedNameIsClean | internal/backend/k8sclient/role_fs.go:352-391 | the relative path a listing prints is itself an accepted name, and cleaning it leads back to the same file |
| RoleStore.RunRefinesIff | internal/backend/k8sclient/role_fs.go:419-515 | a sequence of operations that name files (not the metadata, and no directory as the source of a rename) does at every step what it does on the flat map, if and only if it holds no stray rename |
| RoleStore.RunRefines | internal/backend/k8sclient/role_fs.go:419-515 | without stray renames: after any such sequence of puts, deletes and file renames the tree has given the same answers and holds the same flat map as the map operations, is coherent, and is untouched outside the role |
| RoleStore.StepRefinesIff | internal/backend/k8sclient/role_fs.go:419-515 | one operation that names files gives the same answer and map as on the flat map, keeps the tree coherent, changes nothing when rejected and stamps the metadata when successful, if and only if it is not a stray rename |
| RoleStore.DirectoriesAreAncestors | internal/backend/k8sclient/role_fs.go:506-515 | the directories below a role are exactly the proper ancestors of its files: none empty, none missing |
| RoleStore.CleanUpRestoresCoherence | internal/backend/k8sclient/role_fs.go:506-515 | the clean-up after a removal deletes exactly the directories that the removal left without files, and nothing at or above the role |
| RoleStore.PutRefines | internal/backend/k8sclient/role_fs.go:419-446 | a put succeeds exactly when no file is an ancestor or descendant of the new path and it is not the role itself, and then adds that one file; otherwise nothing changes (names that clean to the metadata file are left out) |
| RoleStore.DeleteRefines | internal/backend/k8sclient/role_fs.go:448-468 | a delete succeeds exactly for a file of the map and removes that one; deleting a directory that holds files is an error without effect (the metadata file is left out) |
| RoleStore.RenameRefines | internal/backend/k8sclient/role_fs.go:470-503 | a rename of anything but a directory moves the file exactly when the source exists and the target does not conflict; a rejected rename changes the tree if and only if it is stray (the old name leads through a file and the directory of the new name is missing but can be made) |
| RoleStore.PutOutcome | internal/backend/k8sclient/role_fs.go:419-446 | on any tree, coherent or not: without the role's metadata file, under a file or in place of a directory a put answers false and changes nothing; otherwise the file is there with the directories on its way, nothing else has changed but the time of the metadata, and the answer is whether those can be read |
| RoleStore.DeleteOutcome | internal/backend/k8sclient/role_fs.go:448-468 | on any tree: a file or empty directory goes, with none but directories on its way to the role; all other files stay; the answer is whether the metadata can be read, so without them it is false although the file has gone; anything else is refused without any change |
| RoleStore.RenameOutcome | internal/backend/k8sclient/role_fs.go:470-503 | on any tree, of a file: it moves over whatever file had the new name, all other files stay, and the answer is whether the metadata can be read; it is refused under a file or in place of a directory |
| RoleStore.StrayRenameBreaksCoherence | internal/backend/k8sclient/role_fs.go:481-492 | a stray rename is answered with an error and still leaves a new empty directory behind |
| RoleStore.StrayRenameIsSeen | internal/backend/k8sclient/role_fs.go:481-492 | callers see it: at that directory a put that would have succeeded is refused, and a delete that would have been refused succeeds |
| RoleStore.GetAgrees | internal/backend/k8sclient/role_fs.go:393-417 | reading a name gives what the flat map holds under it, or nothing |
| RoleListing.ListingIsUnique | internal/backend/k8sclient/role_fs.go:352-391 | two listings of the same flat map are equal: order and contents are determined by the map alone |
| RoleListing.ListingHasEveryFileOnce | internal/backend/k8sclient/role_fs.go:352-391 | a listing has exactly as many entries as the map has files |
| RoleListing.NameIsInjective | internal/backend/k8sclient/role_fs.go:352-391 | different files of a role print as different names |
| RoleClients.RoleClient.TouchMetadata | internal/backend/k8sclient/role_fs.go:131-138 | on the disk, exactly the stamping function, an error when the metadata cannot be read |
| RoleClients.RoleClient.CleanEmptyParents | internal/backend/k8sclient/role_fs.go:506-515 | the loop upwards ends, and removes exactly what the recursive clean-up removes |
| RoleClients.RoleClient.PutFile | internal/backend/k8sclient/role_fs.go:419-446 | the steps on the disk come to the put of the refinement theorem; without the role's metadata file the answer is false and nothing changes; true only if the metadata can then be read |
| RoleClients.RoleClient.DeleteFile | internal/backend/k8sclient/role_fs.go:448-468 | the steps on the disk come to the delete of the refinement theorem; true only if the metadata can then be read |
| RoleClients.RoleClient.RenameFile | internal/backend/k8sclient/role_fs.go:470-503 | the steps on the disk come to the rename of the refinement theorem; true only if the metadata can then be read |
| RoleClients.RoleClient.GetFile | internal/backend/k8sclient/role_fs.go:393-417 | found exactly when both names are accepted and the file exists, with its content |
| RoleClients.RoleClient.ListFiles | internal/backend/k8sclient/role_fs.go:345-391 | the result is the listing of the flat map: sorted by name, every file with its content, without the metadata |
| RoleClients.RoleClient.CountFiles | internal/backend/k8sclient/role_fs.go:535-549 | the number of files in the flat map |
| RoleClients.RoleClient.Create | internal/backend/k8sclient/role_fs.go:199-271 | all or nothing: the new tree is either the complete role with its metadata, or the tree without the role directory; a role that was there before, or a name that is not accepted, is refused without any change |
| RoleClients.RoleClient.WriteFiles | internal/backend/k8sclient/role_fs.go:243-258 | writing in any order of the map succeeds exactly when all names can be stored together, and otherwise leaves nothing below the role |
| RoleCreation.CollectDefaults | internal/backend/k8sclient/role_fs.go:213-229 | a default exists for exactly the well-known names with non-empty content and the template's skills |
| RoleCreation.CollectFiles | internal/backend/k8sclient/role_fs.go:213-241 | the files are defaults, then initial files where no default exists, then user files over everything, name by name |
| RoleCreation.TemplateGives | internal/backend/k8sclient/role_fs.go:213-241 | what ends up in the role under SOUL.md, PROMPT.md, AGENTS.md and skills/<name>/SKILL.md is the template's text of that kind, unless the user gives a file of that name |
| RoleCreation.WithoutTemplate | internal/backend/k8sclient/role_fs.go:213-241 | without a template the role gets the initial files and the user's and no other; the initial ones start empty |
| RoleCreation.WriteStep | internal/backend/k8sclient/role_fs.go:243-258 | one round of the loop succeeds exactly when the new path is neither above nor below a path written before |
| RoleCreation.CreateIsDeterministicIff | internal/backend/k8sclient/role_fs.go:199-271 | every iteration order of the map gives the same tree and the same answer, if and only if the create is refused, fails or rolls back, or names for one file other than the metadata's have the same text |
| RoleCreation.AliasesDisagree | internal/backend/k8sclient/role_fs.go:244-257 | the names a and ./a with different texts are a request that completes and whose tree depends on the order |
| RoleCreation.RequestedIsUnique | internal/backend/k8sclient/role_fs.go:213-241 | the map of files to write is determined by the request and the template |
| RoleCreation.CreateSucceeds | internal/backend/k8sclient/role_fs.go:199-271 | a role that does not exist is created exactly when its files can be stored together, and then holds exactly the requested files and metadata with the description and the time; otherwise no file has changed and the role does not exist |
| RoleCreation.CreatedRoleIsCoherent | internal/backend/k8sclient/role_fs.go:199-271 | the tree of a created role meets the invariant that all later operations keep, and the metadata file holds description and time |
| RoleCreation.RollbackLeavesParents | internal/backend/k8sclient/role_fs.go:205-257 | removing the role directory after a failure undoes everything that was written below it and nothing else |
| RoleArchive.ParseZipFiles | internal/backend/handler/roles.go:118-152 | the loop over the archive gives, for every stored name, the text of the last entry that cleans to it |
| RoleArchive.ImportedIff | internal/backend/handler/roles.go:118-152 | a name is stored exactly when some entry that is no directory comes to it |
| RoleArchive.LastEntryWins | internal/backend/handler/roles.go:118-152 | with the text of the last such entry |
| RoleArchive.StoredNameIs | internal/backend/handler/roles.go:129-136 | the name an entry comes to: backslashes turned into slashes, then one leading slash dropped, then one leading ./ |
| RoleArchive.Export | internal/backend/handler/roles.go:401-421 | the entries are the listing in order followed by the metadata entry |
| RoleArchive.ImportOfExportIff | internal/backend/handler/roles.go:118-152 | parsing an exported archive gives back every file name with its text, plus the metadata entry, if and only if no name holds a backslash |
| RoleArchive.ExportImportRestoresIff | internal/backend/handler/roles.go:118-152 | export, import, create without template: the new role is created and has the same sorted list of names and contents, if and only if no name holds a backslash |
| RateLimiter.Bucket.Allow | internal/gateway/ratelimit/token_bucket.go:29-46 | the method's new state and answer are those of the functions the theorems are about, whose answers `ExactAdmission` gives in numbers |
| RateLimiter.ExactAdmission | internal/gateway/ratelimit/token_bucket.go:20-46 | a call is refused if and only if some window ending with it has grants + 1 > burst + seconds * rpm / 60 |
| RateLimiter.ExactAdmissionOverCalls | internal/gateway/ratelimit/token_bucket.go:20-46 | for a clock that does not run backwards and rpm >= 0, the same, where only windows that open at a call need to be looked at |
| RateLimiter.BucketObeys | internal/gateway/ratelimit/token_bucket.go:20-46 | every window of the bucket's own answers that closes with a grant holds at most burst + seconds * rpm / 60 grants |
| RateLimiter.MostPermissive | internal/gateway/ratelimit/token_bucket.go:20-46 | no limiter whose every window holds at most burst + seconds * rpm / 60 grants has, at any point, granted more calls |
| RateLimiter.AvailableIsLeastSlack | internal/gateway/ratelimit/token_bucket.go:29-46 | the tokens before a call are the least slack of all windows that would close with it |
| RateLimiter.Limiter.Allow | internal/gateway/ratelimit/token_bucket.go:70-73 | finds or makes the agent's bucket, answers from it and changes no other bucket |
| RateLimiter.Limiter.Sweep | internal/gateway/ratelimit/token_bucket.go:92-104 | deletes exactly the buckets idle since before the cutoff, as a sequence of the single deletions of the interleaving model |
| RateLimiter.Limiter.DeleteIfIdle | internal/gateway/ratelimit/token_bucket.go:96-101 | deletes one bucket if it is idle, and that one only |
| RateLimiter.SweepUnobservableIff | internal/gateway/ratelimit/token_bucket.go:92-104 | for every interleaving of calls and deletions after five idle minutes the answers equal those without deletions, if and only if burst <= 0 or burst <= 5 * rpm |
| RateLimiter.SweepObserved | internal/gateway/ratelimit/token_bucket.go:92-104 | beyond that limit, a concrete run, spend, pause, delete, spend again, whose answers differ from those without the deletion |
| RateLimiter.AgentsAreIndependent | internal/gateway/ratelimit/token_bucket.go:70-73 | what an agent is answered is a function of the events about that agent alone |
| RateLimiter.AgentSeesItsOwnLimiter | internal/gateway/ratelimit/token_bucket.go:70-104 | with a harmless configuration an agent sees a limiter of its own, whoever else calls and whatever is swept |
| RateLimiter.OwnLimiterIsOneBucket | internal/gateway/ratelimit/token_bucket.go:70-73 | and that limiter answers as the single bucket of the exact admission theorem |
| StreamGroup.ParseReply | internal/common/redisclient/stream_reader.go:56-69 | the well-formed entries of a reply, in order; malformed ones are skipped |
| StreamGroup.ReadsInOrder | internal/common/redisclient/stream_reader.go:44-69 | what a read hands over is all the well-formed ones among the next n entries, in the order of the stream |
| WriterProtocol.NoLoss | internal/backend/chwriter/clickhouse_writer.go:38-145 | in every run of deliveries, lost replies, failed or half-failed inserts, lost acknowledgements, crashes, restarts and reclaims: a well-formed delivered entry is pending, in ClickHouse, in a dead-letter file, or in a batch whose dead-letter write failed; a malformed one stays pending |
| WriterProtocol.NoRunLosesIff | internal/backend/chwriter/clickhouse_writer.go:38-145 | for a set of outcomes that dead-letter writes may have, every delivered well-formed entry is pending, in ClickHouse or in a dead-letter file after every run, if and only if failure is not among them |
| WriterProtocol.OnlyFailedDeadLettersDrop | internal/backend/chwriter/clickhouse_writer.go:103-108 | no message is dropped in a run whose dead-letter writes all succeed |
| WriterProtocol.FailedDeadLetterLoses | internal/backend/chwriter/clickhouse_writer.go:103-127 | a concrete run in which a failed dead-letter write is acknowledged all the same and the message is gone |
| WriterProtocol.StepKeepsInv | internal/backend/chwriter/clickhouse_writer.go:38-145 | every step keeps: delivered entries are pending or on record, and all that is buffered or recorded was really delivered |
| WriterProtocol.RecordsArePermanent | internal/backend/chwriter/clickhouse_writer.go:124-145 | once recorded a message stays recorded, dead-letter files are never overwritten, and every record is of a delivered message |
| WriterProtocol.DeadLetterNameIsNew | internal/backend/chwriter/clickhouse_writer.go:91-132 | the sleeps of the three attempts put each dead-letter file into a later second than all earlier ones, so its name is new |
| WriterProtocol.BatchesPartition | internal/backend/chwriter/clickhouse_writer.go:42-74 | within one process life, flushed batches followed by the buffer are the sequence of messages read, in order and once each |
| WriterProtocol.RecordedOnce | internal/backend/chwriter/clickhouse_writer.go:78-109 | each batch ends in exactly one successful insert or one dead-letter attempt |
| ChWriter.Writer.InsertOrBury | internal/backend/chwriter/clickhouse_writer.go:90-108 | for every outcome of the calls, the retry loop is the run of the protocol that stops at the first successful insert, buries the batch after the third failure, and acknowledges in either case; in the world: the rows are in ClickHouse if one of three attempts succeeds, else the batch is in a new dead-letter file unless that could not be written; all messages of the batch, and no others, are acknowledged unless the acknowledgement is lost |
| ChWriter.Writer.ReadStream | internal/common/redisclient/stream_reader.go:44-70 | if the server can hand out n entries and the reply arrives, the buffer of the stream grows by exactly the well-formed ones of them; if the reply does not arrive no buffer changes; in either case these entries are delivered; other buffers stay |
| ChWriter.Writer.PollStream | internal/backend/chwriter/clickhouse_writer.go:58-72 | one round of the default branch: the buffer grows by what a read that arrives hands over; at 100 or more it is written as one batch and emptied, below it stays; no other buffer changes |
| ChWriter.Writer.TickStream | internal/backend/chwriter/clickhouse_writer.go:52-57 | the ticker writes a buffer that is not empty as one batch and leaves it empty, and does nothing to an empty one |
| ChWriter.Writer.ReclaimPending | internal/backend/chwriter/clickhouse_writer.go:111-122 | the start-up pass is the run of the protocol that claims up to 100 pending entries of each stream in turn and flushes the well-formed ones |
| ChWriter.Writer.ReclaimStream | internal/common/redisclient/pending.go:14-36 | one stream of that pass: the well-formed ones of the claimed pending entries are dealt with as a batch; nothing changes when there are none |
| ChWriter.Writer.Run | internal/backend/chwriter/clickhouse_writer.go:38-76 | any number of turns of the loop is exactly the run of the protocol that the answers of the outside determine; what was read of each stream is, in order, the well-formed entries of the replies that arrived, and batches followed by the buffer partition it; every buffer stays below 100 |
| WriterOutcome.RunMoves | internal/backend/chwriter/clickhouse_writer.go:38-76 | how far each group is delivered, and what has been read of its stream, after any rounds: the fold over the replies, by literal counts and not by the scripts |
| WriterOutcome.InsertScriptSettles | internal/backend/chwriter/clickhouse_writer.go:90-108 | what a whole flush leaves in ClickHouse, the dead-letter files and the group, from any attempt on |
| Template.LastRuleIff | internal/operator/reconciler/k8s_resources.go:158-176 | with all rules but the last in order: replacing one after the other is one pass on every prompt, if and only if no earlier value touches (is part of, holds or overlaps) the last placeholder, or that is replaced by itself |
| Substitution.SequentialIsSimultaneous | internal/operator/reconciler/k8s_resources.go:158-176 | successive replacement of all placeholders is one left-to-right substitution whenever no value touches a placeholder replaced after it |
| Template.InertTouchesNothing | internal/operator/reconciler/k8s_resources.go:158-176 | a non-empty value without braces and not made of placeholder characters only touches no placeholder |
| Template.HarmlessBrace | internal/operator/reconciler/k8s_resources.go:158-176 | such values are not the only ones: one with a brace in it touches no placeholder either |
| Template.OrderDoesNotMatterIff | internal/operator/reconciler/k8s_resources.go:158-176 | every order of the replacements gives the same text for every prompt, if and only if no value touches the placeholder of another rule that does not stand for itself |
| Template.SecondTimeIff | internal/operator/reconciler/k8s_resources.go:158-176 | substituting again changes nothing for any prompt, if and only if no value touches a placeholder, its own included, that does not stand for itself |
| AgentPrompt.PromptIsOnePassIff | internal/operator/reconciler/k8s_resources.go:158-176 | for one agent, the replacements are the one-pass substitution of every prompt, if and only if the joined repositories touch neither placeholder replaced after theirs and the id does not touch the last one (which does not matter if the role is its own placeholder); an empty repository list leaves its placeholder alone |
| AgentPrompt.PromptIsOnePass | internal/operator/reconciler/k8s_resources.go:158-176 | `CleanValues` (no braces in the name; repositories without braces and not made of placeholder characters only) suffices for that |
| AgentPrompt.PromptIsFilled | internal/operator/reconciler/k8s_resources.go:158-176 | a prompt with the three placeholders and otherwise no braces has the repositories, agent-<name> and the role in their places and the text around them as it was, for every agent with repositories whose placeholders keep their meaning |
| AgentPrompt.CommasBetween | internal/operator/reconciler/k8s_resources.go:166-168 | the repositories are joined by single commas |
| AgentPrompt.OrderIsIrrelevantIff | internal/operator/reconciler/k8s_resources.go:158-176 | for one agent, every order of its replacements resolves every prompt alike, if and only if no value touches the placeholder of another rule that does not stand for itself |
| AgentPrompt.ResolvingTwiceIff | internal/operator/reconciler/resource_reconciler.go:82-94 | for one agent whose placeholders keep their meaning, resolving the resolved prompt changes nothing for any prompt, if and only if no value touches a placeholder, its own included, that does not stand for itself |
| AgentPrompt.CleanValuesAreIndependent | internal/operator/reconciler/k8s_resources.go:158-176 | `CleanValues`, and a role value of the same simple kind, suffice for both |
| AgentPrompt.CronPromptIsStored | internal/operator/reconciler/resource_reconciler.go:82-94 | the prompt that is scheduled is the one stored in the prompt ConfigMap |
| AgentPrompt.RepositoriesCanFormPlaceholder | internal/operator/reconciler/k8s_resources.go:158-176 | a concrete repository list that completes a placeholder and makes the two substitutions differ |
| AgentPrompt.ComputeHash | internal/operator/reconciler/k8s_resources.go:178-189 | the loop over the map in any order gives the digest of the sorted lines |
| AgentPrompt.DigestedText | internal/operator/reconciler/k8s_resources.go:178-189 | the digested text is empty for no data, and one entry behind the others adds its key, an equals sign, its value and a line end |
| AgentPrompt.EveryChangeShowsIff | internal/operator/reconciler/k8s_resources.go:178-189 | with a collision-free digest, over keys without equals sign and line end: every change away from given data changes the hash, if and only if they have at most one entry and no line of its value begins like the line of a later key |
| AgentPrompt.HashDetectsChange | internal/operator/reconciler/k8s_resources.go:178-189 | for two data of which no value contains a line that begins like a key's, equal hashes mean equal data |
| AgentPrompt.HashMissesChange | internal/operator/reconciler/k8s_resources.go:178-189 | two concrete, different data with the same hash under every digest: a value can contain what another key's line would add |
| SkillKeys.RoundTripIff | scripts/migrate-roles-to-pvc.sh:75 | decoding every double underscore from the left undoes the key encoding if and only if the path has no double underscore and no underscore right before a slash |
| SkillKeys.KeysAreDistinct | internal/operator/reconciler/k8s_resources.go:121-123 | decodable paths have different keys |
| SkillKeys.BuildSkillsData | internal/operator/reconciler/k8s_resources.go:238-250 | the loop in any order gives a map whose keys are the encoded paths, each with the content of a path with that key |
| SkillKeys.SkillsDataIsUniqueIff | internal/operator/reconciler/k8s_resources.go:238-250 | the order of the map does not show in the ConfigMap, if and only if skills that share a key have the same content |
| SkillKeys.BuildSkillItems | internal/operator/reconciler/k8s_resources.go:254-271 | the items are one per path, key and path belonging together, sorted by path |
| SkillKeys.SkillItemsAreUnique | internal/operator/reconciler/k8s_resources.go:254-271 | the item list is the same for every iteration order |
| SkillKeys.MountRestoresSkills | internal/operator/reconciler/k8s_resources.go:238-271 | on decodable paths every item's key is in the ConfigMap and the mounted files are exactly the role's skills |
| SkillKeys.MountRestoresIff | internal/operator/reconciler/k8s_resources.go:238-271 | the mounted files are the role's skills if and only if paths that share a key have the same content |
| SkillKeys.SharedKeyLosesContent | internal/operator/reconciler/k8s_resources.go:121-123 | two concrete, different paths with one key |
| Reconcile.RetryConvergesIff | internal/operator/reconciler/resource_reconciler.go:46-72 | for all attempts over the same inputs, each failing after any prefix of its single writes, looping over the skills in any order and able to read the stored prompt back or not, and from every store: a full reconcile ends in the store of an uninterrupted one, up to token values, if and only if skills that share a key have the same content |
| Reconcile.RetryConverges | internal/operator/reconciler/resource_reconciler.go:46-72 | one such sequence of attempts, when skills that share a key have the same content |
| Reconcile.InvalidKeyBlocks | internal/operator/reconciler/k8s_resources.go:192-236 | if a skill key or the name of an extra file is no valid ConfigMap key, attempts never get past that write, and no number of them touches a Deployment |
| Reconcile.CompletesIff | internal/operator/reconciler/k8s_resources.go:126-236 | no write of a reconcile is refused exactly when the keys of the skills and of the extra files are valid |
| Reconcile.FullReconcileIsStableIff | internal/operator/reconciler/resource_reconciler.go:46-72 | from any store, one more full reconcile with any order of its loop over the skills changes nothing at all, token values included, if and only if skills that share a key have the same content |
| ReconcileOutcome.FullReconcileLeaves | internal/operator/reconciler/resource_reconciler.go:46-72 | object by object what a full reconcile leaves in the store, in literal names and values: the Gitea user, its status entry, token and write or read permission on each well-formed repository; the secrets, claim, service and account; the binding at home and in each further existing namespace; the ConfigMaps with their data and hash; the Deployment with replicas, volumes, mounts and the account; and that nothing else has changed |
| ReconcileOutcome.RepoIs | internal/operator/reconciler/gitea_user.go:128-146 | a repository name is well-formed exactly with an owner and a name, neither empty, around the first slash |
| ReconcileSteps.OthersStaySettled | internal/operator/reconciler/k8s_resources.go:126-474 | no write disturbs what another has settled, except a prompt under the Deployment that carries its hash |
| Reconcile.DeploymentIsCoherent | internal/operator/reconciler/k8s_resources.go:443-621 | after a full reconcile every ConfigMap, Secret and claim that the Deployment mounts exists, its hash is that of the stored prompt data, and replicas are 0 exactly when paused |
| Reconcile.MountedSkillsAreTheRoles | internal/operator/reconciler/k8s_resources.go:238-271 | what the pod sees in its skills volume is the role's skills, path by path, if and only if skills whose paths share a key have the same content |
| Reconcile.UnreadablePromptIsRepaired | internal/operator/reconciler/k8s_resources.go:443-474 | a complete reconcile that could not read the prompt back is repaired by the next one that can, token values included |
| Operator.ResourceReconciler.EnsureGiteaUser | internal/operator/reconciler/gitea_user.go:21-47 | completes its two writes in order, or as many as go through before the fault |
| Operator.ResourceReconciler.EnsureGiteaToken | internal/operator/reconciler/gitea_user.go:62-88 | creates the token secret if it is missing and never replaces one |
| Operator.ResourceReconciler.EnsureGiteaRepoAccess | internal/operator/reconciler/gitea_user.go:128-146 | grants access to each well-formed repository in order, skipping the others; stops at the first failure |
| Operator.ResourceReconciler.EnsureJWTSecret | internal/operator/reconciler/jwt.go:21-46 | creates the secret if it is missing and never replaces one |
| RoleReader.ReadRoleDataFromDir | internal/operator/reconciler/k8s_resources.go:66-106 | the loop over the walk puts each file where its name, in any case of letters, belongs; of several files with one well-known name the last of the walk counts |
| RoleReader.FetchRoleData | internal/operator/reconciler/k8s_resources.go:110-119 | no role and no directory give no data; a directory gives the data determined by the flat map of the role store; a path through a file, or a failing read, is an error |
| RoleReader.ListingIsWalk | internal/operator/reconciler/k8s_resources.go:71-101 | the sorted listing of the role store is one of the walks that the reading may be given |
| RoleReader.RoleDataIsUnique | internal/operator/reconciler/k8s_resources.go:66-106 | the role data are determined by the flat map, whatever the walk |
| RoleReader.LastIsGreatest | internal/operator/reconciler/k8s_resources.go:66-106 | of several files with one well-known name in different case, the one with the greatest name counts |
| AgentFiles.EveryFileReachesIff | internal/operator/reconciler/k8s_resources.go:66-621 | from the role store to the container: a full reconcile goes through and the pod then shows every file of the role where it belongs with its text (the prompt resolved), if and only if every skill path and extra name gives a valid key, well-known names that differ in case have texts that come to the same, those that count are not empty, and skills that share a key have the same content |
| AgentFiles.FileReachesIff | internal/operator/reconciler/k8s_resources.go:66-621 | the same for one file, whatever the order of the loop over the skills |
| AgentFiles.SeenAfterReconcile | internal/operator/reconciler/k8s_resources.go:476-595 | what the container's three directories for role files show after a full reconcile, name by name: the prompt data, the skills under their paths, the extra files |
| AgentFiles.WhereFilesBelong | internal/operator/reconciler/k8s_resources.go:87-99 | in literal names: soul.md, prompt.md and agents.md in any case of letters under /agent/config in their canonical spelling, the prompt resolved; names under skills/ below /agent/skills, all others in /agent/role, as they are |
| AgentFiles.PutReachesAgent | internal/backend/k8sclient/role_fs.go:419-446 | what a put has stored is what the pod shows after the next full reconcile, which goes through, if and only if all names of the role give valid keys and the file is neither shadowed, nor an empty well-known one, nor a skill with the key of one of other content |
| AgentFiles.NestedFileBlocks | internal/operator/reconciler/k8s_resources.go:215-236 | a file in a directory that is not a skill keeps its role from ever being reconciled to the end: no number of attempts touches the Deployment |
| AgentFiles.NestedFileIsRefused | internal/operator/reconciler/k8s_resources.go:215-236 | docs/notes.md is such a file, in a role where nothing else is wrong |
| AgentFiles.SharedKeyHidesSkill | internal/operator/reconciler/k8s_resources.go:238-250 | skills/a__b and skills/a/b of different content share a key, in a role where nothing else is wrong |
| Operator.ResourceReconciler.EnsureRoleData | internal/operator/reconciler/resource_reconciler.go:36-43 | succeeds exactly when the role can be fetched, and then holds what was fetched; otherwise the data of the last reading stay; the cluster is left alone |
| Operator.ResourceReconciler.EnsureConfigMap | internal/operator/reconciler/k8s_resources.go:126-154 | the stored prompt data and hash are those of the agent and role; foreign annotations stay |
| Operator.ResourceReconciler.EnsureSkillsConfigMap | internal/operator/reconciler/k8s_resources.go:192-211 | stores the skills data under the encoded keys, or is refused when a key is invalid |
| Operator.ResourceReconciler.EnsureRoleFilesConfigMap | internal/operator/reconciler/k8s_resources.go:215-236 | stores the extra files, is refused when a name is no valid key, or does nothing when there are none |
| Operator.ResourceReconciler.EnsurePVC | internal/operator/reconciler/k8s_resources.go:274-316 | creates the claim with the agent's size and class if it is missing |
| Operator.ResourceReconciler.EnsureService | internal/operator/reconciler/k8s_resources.go:320-341 | creates the service if it is missing |
| Operator.ResourceReconciler.EnsureServiceAccount | internal/operator/reconciler/k8s_resources.go:344-359 | creates the account if it is missing |
| Operator.ResourceReconciler.EnsureRoleBinding | internal/operator/reconciler/k8s_resources.go:366-439 | binds the agent at home and in each further namespace that exists, in order |
| Operator.ResourceReconciler.EnsureDeployment | internal/operator/reconciler/k8s_resources.go:443-595 | creates the Deployment with its volumes and mounts, or replaces replicas, hash and pod of the one there |
| Operator.ResourceReconciler.ReconcileAll | internal/operator/reconciler/resource_reconciler.go:46-72 | with a fault after any number of writes, the thirteen steps complete exactly that many of the planned writes in order, or stop before the first ConfigMap if the role cannot be read, or at the write that the cluster refuses; they report success exactly when they complete all, which they can only if no key is invalid, and success means that every object is there as `FullReconcileLeaves` lists it |
| Replay.ReconstructAtIndex | scripts/claude-file-history.py:264-322 | out of range gives nothing; with a write or readable snapshot at or before the target, the content is the full replay of every operation up to it; without one, the patched first snapshot of the whole log |
| Replay.EditReplacesFirst | scripts/claude-file-history.py:264-269 | for every text around a target that occurs nowhere before, the edit puts the replacement in place of exactly that occurrence |
| Replay.EditWithoutTarget | scripts/claude-file-history.py:264-269 | an edit whose target does not occur changes nothing |
| Replay.LastEditShows | scripts/claude-file-history.py:264-322 | reconstructing at an edit gives the replayed content with exactly the first occurrence of the target replaced |
| Replay.LastOperationShows | scripts/claude-file-history.py:264-322 | reconstructing at a write gives its text, at a readable snapshot the backup, and at an empty write, an unreadable snapshot or an edit without target what the operations before gave |
| Replay.FirstSnapshotIs | scripts/claude-file-history.py:296-305 | the fallback is the first of the readable snapshots |
| Replay.FirstOperationShows | scripts/claude-file-history.py:284-322 | a log of one operation gives the text of a write that is not empty, the backup of a snapshot if it is readable, and otherwise nothing |
| Replay.FastIsFull | scripts/claude-file-history.py:275-322 | from the latest baseline on, applying edits alone is replaying everything |
| Replay.FastIsFullIff | scripts/claude-file-history.py:275-322 | fast and full replay agree if and only if a baseline lies at or before the target or the log has no readable snapshot at all |
| Replay.FirstSnapshotIff | scripts/claude-file-history.py:296-305 | the fallback finds a snapshot exactly when the log has a readable one |
| Replay.FileTimeline.Add | scripts/claude-file-history.py:108-110 | after every addition the timeline is a stable sort by timestamp of all that arrived |
| Replay.StableSortIsUnique | scripts/claude-file-history.py:108-110 | a stable sort of the arrivals is unique, so sorting each time or once at the end is the same |
| Replay.IndexAtTime | scripts/claude-file-history.py:403-413 | the last operation at or before the moment; none if some timestamp cannot be read |
| Replay.ExactForeverIff | scripts/claude-file-history.py:403-413 | reconstructing at any moment replays exactly the operations at or before it, if and only if the timeline is in the order of time |
| Replay.ReplayAtTime | scripts/claude-file-history.py:403-413 | with uniformly formatted timestamps, what is replayed is the stable sort of exactly those arrivals that lie at or before the moment |
| Replay.ReconstructAtTime | scripts/claude-file-history.py:391-416 | looking up a moment and reconstructing there gives the full replay of the operations at or before it, once one of them is a baseline |
| Replay.FractionsSortEarly | scripts/claude-file-history.py:108-110 | with mixed formats a timestamp with a fraction sorts before the whole second it follows, and a reconstruction at that second replays the later operation |
| Explorer.BuildVisibleItems | frontend/src/pages/Observe/FileExplorer.tsx:147-172 | the loop produces the specified list |
| Explorer.VisibleIsOpen | frontend/src/pages/Observe/FileExplorer.tsx:147-172 | what is shown is the preorder of exactly the nodes whose ancestors are all expanded |
| Explorer.ShownIsNode | frontend/src/pages/Observe/FileExplorer.tsx:147-172 | every line shown is the one of a node of the tree, with its name, full path, flag and depth, and all directories above it are expanded |
| Explorer.NodeIsShown | frontend/src/pages/Observe/FileExplorer.tsx:147-172 | and every such node has its line |
| Explorer.ShownIff | frontend/src/pages/Observe/FileExplorer.tsx:147-172 | for well-named trees an item is shown exactly when every directory that its own path names is expanded |
| Explorer.AncestorsAreAbove | frontend/src/pages/Observe/FileExplorer.tsx:147-172 | the directories above an item are the proper prefixes of its path, and their number is its depth |
| Explorer.VisiblePathsAreDistinct | frontend/src/pages/Observe/FileExplorer.tsx:147-172 | no two shown items have the same path when sibling names are distinct, non-empty and without slashes |
| Explorer.CollectExpandedPaths | frontend/src/pages/Observe/FileExplorer.tsx:179-199 | the recursion over the shared set adds exactly the specified paths |
| Explorer.CollectedIff | frontend/src/pages/Observe/FileExplorer.tsx:179-199 | a directory is collected if and only if it is modified or something modified or the active file lies below it |
| Explorer.RelevantIsVisible | frontend/src/pages/Observe/FileExplorer.tsx:47-58 | whatever was expanded before, after adding the collected paths every modified node and the active file are shown |
| Workspace.WalkDir | internal/observer/workspace.go:49-93 | the loop with its inner roll-up produces the specified nodes |
| Workspace.WalkMirrorsDisk | internal/observer/workspace.go:49-93 | at every depth a directory is flagged if and only if a reachable file below it is modified; hidden entries are left out, files carry their own flag |
| Workspace.ListedIsReachable | internal/observer/workspace.go:49-93 | the files meant by reachable: each has names that lead to it through readable directories, none starting with a dot, and its path is these names joined by slashes |
| Workspace.ReachableIsListed | internal/observer/workspace.go:49-93 | and every such file is one of them |
| Workspace.AnyModifiedIff | internal/observer/workspace.go:72-79 | some node of a walk is flagged exactly when some reachable file is modified |
| Workspace.ModifiedFilesAreShown | frontend/src/pages/Observe/FileExplorer.tsx:179-199 | from the disk to the screen: every reachable modified file, and the active one, is an item of the explorer with its path and flag |
| GitStatus.GitModifiedFiles | internal/observer/workspace.go:96-117 | the loop gives the files that the trimmed report names line by line |
| GitStatus.SeenIff | internal/observer/workspace.go:105-115 | the files seen are exactly the files reported, if and only if the report's first line does not begin with a blank (or is a move from a path of several characters): trimming the whole report shifts that line |
| GitStatus.ShiftedLine | internal/observer/workspace.go:105-115 | what becomes of such a first line: the path loses its first character, or is not seen |
| Workspace.FlagIff | internal/observer/workspace.go:36-93 | exactly which reachable files are flagged for a report: the reported ones, but for the first if its line is misread; instead of it, a file with the misread name |
| Workspace.DirectoryEntryFlagsNothing | internal/observer/workspace.go:64-89 | the entry for an untracked directory, which ends in a slash, changes no flag |
| HubProtocol.NeverPanics | internal/backend/wspush/websocket_pusher.go:37-73 | in every interleaving of registrations, repeated unregistrations, broadcasts and write pumps nothing is sent on a closed channel and none is closed twice |
| HubProtocol.Delivery | internal/backend/wspush/websocket_pusher.go:62-73 | received, lost by a failed write (at most one) and queued messages are together, in order, the broadcasts the client was due that found fewer than 256 queued |
| HubProtocol.KeepingUpMissesNothing | internal/backend/wspush/websocket_pusher.go:107-126 | a client that never has 256 queued and whose pump ends with the close frame has received all it was due |
| HubProtocol.StepKeepsInv | internal/observer/ws.go:59-142 | each step keeps: registered means open, a broadcast under way is only for registered clients, at most 256 are queued |
| HubProtocol.AcceptedAreOffered | internal/backend/wspush/websocket_pusher.go:62-73 | what was accepted is a subsequence of what was offered, and all of it when the queue was never full |
| HubProtocol.RunGoesOn | internal/backend/wspush/websocket_pusher.go:37-74 | steps that a call of the hub object takes continue any run, so the theorems about runs hold of the object |
| Pusher.Hub.Register | internal/backend/wspush/websocket_pusher.go:37-49 | adds a new client with an empty open channel, changes nothing else, and is the protocol's registration |
| Pusher.Hub.Unregister | internal/backend/wspush/websocket_pusher.go:52-59 | the first time closes the channel and keeps what is queued, later times change nothing; in either case it is the protocol's unregistration |
| Pusher.Hub.Broadcast | internal/backend/wspush/websocket_pusher.go:61-74 | each wanting client is offered the message once, whatever the order of the map, the others do not change; the whole is a broadcast of the protocol from its beginning to its end |
| Pusher.WsClient.WritePump | internal/backend/wspush/websocket_pusher.go:107-127 | the loop makes, event by event, the transitions of the protocol's pump and ends at the close, a failed write or a failed ping |
| Pusher.PumpLeads | internal/backend/wspush/websocket_pusher.go:107-127 | in any state of the hub, what events do to a pump is a sequence of the protocol's steps |
| Pusher.PumpDrains | internal/backend/wspush/websocket_pusher.go:107-127 | while the socket works, what is written out and what is queued stay together the same sequence, and the pump ends only on a closed, empty channel, which it reaches |
| Pusher.PumpStops | internal/backend/wspush/websocket_pusher.go:107-127 | a failed ping ends the pump with nothing more taken from the channel, a failed write with exactly one message lost, whatever comes after |
| RoleWatcher.Watcher.ScanForChanges | internal/operator/controller/agent_controller.go:252-295 | after a scan every readable role is recorded and every missing one forgotten; a role is reported exactly when its recorded time differs from the one read or its directory is gone, once per scan, never at first sight; a failed scan changes nothing |
| RoleWatcher.ReportedOncePerChange | internal/operator/controller/agent_controller.go:252-295 | over any run of scans the number of reports is the number of changes between successive clear sights of the role |
| RoleWatcher.ScanTells | internal/operator/controller/agent_controller.go:252-295 | entry by entry: a time that can be read is recorded, and reported when another one was recorded; an unreadable one changes nothing; without a directory of the name the record goes, and is reported if there was one; an unreadable listing changes nothing |
| RoleWatcher.MutationsAreReported | internal/backend/k8sclient/role_fs.go:419-503 | after any sequence of file operations, stray renames included, with fresh clock readings, the role's time differs from the recorded one exactly when one of them succeeded, whatever shape the tree is in |
| RoleWatcher.NextScanNotices | internal/operator/controller/agent_controller.go:252-295 | and a scan of the resulting tree, its entries in any order, notices the role exactly then, which is when the watcher's scan reports it |
| RoleWatcher.ScanSeesTree | internal/operator/controller/agent_controller.go:252-295 | the entries of a tree show of each role what the tree holds: gone, unreadable, or its time |
| MemoryExpansion.GrantRaises | internal/operator/controller/oom_handler.go:6-25 | from a limit of at least 1: granted exactly below the cap, then strictly larger, within the cap, and a multiple of 128 or the cap |
| MemoryExpansion.GrantIsLeast | internal/operator/controller/oom_handler.go:6-25 | a granted limit is the least multiple of 128 that is at least half as much again (rounded down), or the cap, the greater of 2048 and twice the initial limit, if that is less |
| MemoryExpansion.ReachesCap | internal/operator/controller/oom_handler.go:6-25 | repeated expansion is at the cap after k + 1 steps whenever 128 * 3^k >= cap * 2^k, and stays there |
| MemoryExpansion.ZeroIsGrantedForever | internal/operator/controller/oom_handler.go:17-24 | from a limit of 0 an expansion is granted for ever without raising it |
| MemoryExpansion.FitsIn64Bits | internal/operator/controller/oom_handler.go:10-21 | with an initial limit below 2^60 no intermediate value leaves 64 bits |

## Left out

- RunRefinesIff: an operation that names the metadata file, or renames a directory, is not covered.
- RunRefines: the same, and by RunRefinesIff no stray rename.
- StepRefinesIff: an operation that names the metadata file, or renames a directory, is not covered.
- PutRefines: a name that cleans to `.metadata.json` is not covered; the JSON that it would overwrite is a value of the model, not text.
- DeleteRefines: a name that cleans to `.metadata.json` is not covered.
- RenameRefines: renaming whole directories is not part of the model.
- GetFile: modification times, and the kinds of error, are not part of the model.
- ListFiles: modification times are not part of the model, and of a role path that is a file only the success is stated.
- ReadRoleDataFromDir: walking a directory is a library call, given by what it hands over; its order matters only for files directly in the role, which it gives by name.
- RenameFile: the method's contract does not cover an old name that is a directory; renaming whole directories is not part of the model.
- Create: a role name of several components is modelled, but parent directories made on the way stay after a rollback, as in the code.
- MutationsAreReported: needs every clock reading to differ from the recorded time; two changes with one reading are reported as one.
- ExportImportRestoresIff: the zip and JSON codecs are taken as exact.
- SeenIff: paths that git prints in quotes (blanks, quotes, backslashes, non-ASCII characters) are not covered.
- HashDetectsChange: SHA-256, cut to 16 digits, is an arbitrary function, assumed free of collisions here and in EveryChangeShowsIff.
- DeploymentIsCoherent: images, probes, resources and labels of the Deployment are not part of the model; its environment is a constant of the attempt.
- EnsureGiteaToken: issuing the token and creating its Secret are one write, so a fault between the two is not a state of the model; the content of tokens and the random password behind them are an oracle.
- EnsureDeployment: image, probes, resources and labels of the pod are not part of the model, nor that its mounts are read-only.
- EveryFileReachesIff: the cluster refuses a ConfigMap only for its keys (Kubernetes' IsConfigMapKey); the size limit of 1 MiB and texts that are not UTF-8 are left out, and the image's own use of the mounted files is not part of the model.
- ResolvingTwiceIff: for agents that do not meet `KeepsPlaceholders` nothing is said; a value may there name a later placeholder and still be stable.
- FlagIff: paths that git prints in quotes are not covered.
- ReconstructAtTime: timelines of mixed timestamp formats are not covered; `FractionsSortEarly` shows what happens there.
- RetryConvergesIff: each single write either happens or fails before it; conflicts with other writers of the cluster are left out.
- NoLoss: the stream does not trim pending entries, and reclaiming takes up to 100 entries a pass, so nothing is said about draining all of them.
- DeadLetterNameIsNew: the wall clock does not run backwards (no daylight-saving change of local time); file names are compared by second and stream.
- SweepUnobservableIff: a call is one atomic event; the race between looking a bucket up and deleting it is left out, as is the gap between the sweep's check and its deletion.
- ExactAdmission: tokens and seconds are real numbers; rounding of floating point is not modelled.
- ReplayAtTime: timestamps that cannot be compared (with and without zone) raise an exception in the script and are not modelled.
- ShownIff: children given for a node that is not a directory do not occur in the model.
- Delivery: one broadcaster at a time, as in the two Run loops; the socket itself is a write that succeeds or fails.
- Faults of the operating system such as a full disk, permissions and symbolic links in the role store.
- Strings are sequences of characters; the order of Go strings by bytes is taken as the order of characters.
- Listing, describing and deleting whole roles, built-in roles seeded at start, role validation: too easy to add.
- The observer's poller, its file watcher, the diff statistics and the HTTP handlers around them.
- ClickHouse, Redis, PostgreSQL, Gitea and Kubernetes clients: each call is an outcome that succeeds or fails.
- The status and finalizer edits of the controller, React components and styling.
