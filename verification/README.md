# Verified model of CoreBlow's stateful parts

A Dafny model of the parts of CoreBlow that carry state, loops or arithmetic of their own, with
proofs of what they promise. `dafny verify dfyconfig.toml` checks everything.

Code that updates state in place is a class or a method with loops, proved equal to a
specification function (`Next`, `Step`, `Armed`, `Chunks`, ...); lemmas about that function then
state what holds over all inputs and all runs. Each module follows one source file, except that the
import-graph copier is split into four.

| module | what it models |
|---|---|
| `FoundryTokenCache` | the shared Entra ID token refreshes of the Foundry provider, under every interleaving of callers, `az` answers, cleanups and resumptions |
| `BedrockDiscovery` | the Bedrock discovery cache under every interleaving, its cache key, and which models a response yields |
| `ChutesCache` | a Map in insertion order, bounded in size and age, over every sequence of lookups and stores |
| `ImportGraph`, `CommonAncestor`, `ModuleCopy`, `PosixPaths` | collecting the import graph of a module, finding the common root, copying the files, and what relative imports mean afterwards |
| `DirectoryWalk` | the directory walk with an explicit stack |
| `PairNotify` | subscriptions to pairing requests: commands, polls and the state file between them |
| `PhoneControl`, `OrderedNames` | arming and disarming phone commands with an undo record; canonical name lists |
| `OutboundChunker` | splitting outbound Matrix text |
| `Utf16Safe` | slicing and truncating without splitting surrogate pairs |
| `LoginTail` | the bounded capture of login output |
| `PermissionArgs` | rewriting the legacy permission flag in an argument list |
| `SnakeCase` | camel case to snake case by two regular-expression passes |
| `JsText` | text primitives that several modules share |
| `FailingInputs` | one concrete input for each promise that fails |

## What the proofs found

Where a promise does not hold for every input, the code is modelled as it is and the exact
condition is proved.

- The common ancestor is one level too deep, and no common ancestor, exactly when the topmost path
  is itself in the list, strictly above the first one, and all others share the first one's next
  step (`AncestorIsDeepestExactly`). On a real disk the copier never meets that case, because a
  file is not a directory on the way to package.json (`CopyRootHoldsAll`). The loop's early return
  at the file-system root is never taken (`GuardAtRoot`).
- A chat whose account or thread id has surrounding blanks is stored under a trimmed key and looked
  up under the untrimmed one. Exactly then `off` does not undo `on` (`OffUndoesOnExactly`), and a
  repeated command lists the chat twice (`TwiceIsListedOnceExactly`).
- A pairing request whose id is blank is announced again at the next poll, since such marks are
  dropped when the file is read (`AnnouncedAgainExactly`).
- Arming phone commands twice overwrites the undo record: one disarm then reaches the original
  lists exactly when the first arm had nothing to do (`SecondArmForgetsTheFirst`).
- When a Bedrock request fails, the call that sent it gets an empty list while the calls that
  joined it are rejected (`FailureLeavesNothing`).
- A Foundry cache key is safe from every other credential exactly when neither of its parts holds
  a colon (`SafeKeysExactly`).
- The chunker's loop ends exactly for a positive limit, or a zero limit and blank text
  (`LoopEndsExactlyWhen`).
- A relative specifier that found a file finds its copy exactly when following it never leaves the
  common root and, where it names the root directory itself, the temporary directory's name does
  not look like a file name (`ResolvedMovesExactly`). The temporary directory is named after the
  package directory, so a package in `pkg.v2` loses imports of `.` that meant an index file. A
  specifier that found nothing has its own exact condition (`SpecifierMovesExactly`), and a file
  imports the copies of what it imported exactly when its specifiers keep their meaning
  (`ImportsMoveExactly`).
- A pairing request whose id is the name of a property that every JavaScript object inherits, such
  as "constructor", counts as marked and is never announced (`RequestReachesExactly`).

- Two chats can share a key when a part of one holds a bar: a chat is safe from all others exactly
  when neither its address nor its account nor its printed thread does (`KeyIsSafeExactly`).

The module `FailingInputs` proves each of these failures at a concrete input.

## Model

| member | source | states |
|---|---|---|
| FoundryTokenCache.KeysDoNotCollide | extensions/microsoft-foundry/shared-runtime.ts:10-15 | credentials whose subscriptions hold no colon share a key iff they agree in both parts, and then `az` is asked the same |
| FoundryTokenCache.SafeKeysExactly | extensions/microsoft-foundry/shared-runtime.ts:10-15 | no other request shares a credential's key iff neither part holds a colon |
| FoundryTokenCache.AzIsAskedFor | extensions/microsoft-foundry/cli.ts:102-117 | `az` is asked for the subscription if there is one, else for the tenant, else for neither |
| FoundryTokenCache.Runtime.PrepareFoundryRuntimeAuth | extensions/microsoft-foundry/runtime.ts:70-92 | a call up to its await takes exactly the model's call step: cached token with more than five minutes left, else the running refresh, else a new one |
| FoundryTokenCache.Runtime.TokenArrived | extensions/microsoft-foundry/runtime.ts:26-33 | the answered refresh stores its token under its own key, with a 55-minute fallback lifetime |
| FoundryTokenCache.Runtime.RefreshFailed | extensions/microsoft-foundry/runtime.ts:26 | a failed request changes neither map |
| FoundryTokenCache.Runtime.CleanUp | extensions/microsoft-foundry/runtime.ts:87-89 | deletes by key, then settles what callers hold |
| FoundryTokenCache.Runtime.ResumeCaller | extensions/microsoft-foundry/runtime.ts:92-100 | a waiting call returns the settled outcome, an error with its prefix |
| FoundryTokenCache.StepKeepsPromises | extensions/microsoft-foundry/runtime.ts:82-91 | every step keeps refreshPromises equal to the outstanding refreshes, each under its key |
| FoundryTokenCache.RunKeepsInvariant | extensions/microsoft-foundry/runtime.ts:22-100 | in every interleaving promises are exact, every cached token was obtained for its key, and every reply so far is good |
| FoundryTokenCache.SingleFlight | extensions/microsoft-foundry/runtime.ts:82-91 | at most one refresh per key is outstanding; a key is in refreshPromises iff one is |
| FoundryTokenCache.CleanupRemovesItsOwn | extensions/microsoft-foundry/runtime.ts:87-89 | the cleanup removes its own promise and no other, never a newer one |
| FoundryTokenCache.CallSendsExactlyWhenNeeded | extensions/microsoft-foundry/runtime.ts:74-92 | a call is answered from the cache iff its key has a token with more than 300000 ms left; else it asks `az` iff no refresh of its key is outstanding, and waits for that one |
| FoundryTokenCache.FailureAllowsRetry | extensions/microsoft-foundry/runtime.ts:82-100 | whatever runs after a failure, short of a call of the key, the key's cached token is as before; once cleaned up, the next call of the key asks again unless that token is usable |
| FoundryTokenCache.EveryReplyIsGood | extensions/microsoft-foundry/runtime.ts:70-96 | a reply is a token of the caller's own key that was usable when checked, or the outcome of a settled refresh of that key |
| FoundryTokenCache.RefreshFinishedAfterCallBegan | extensions/microsoft-foundry/runtime.ts:82-92 | a call never relies on a refresh that had settled before the call began |
| FoundryTokenCache.OutcomesComeFromAz | extensions/microsoft-foundry/runtime.ts:26-33 | a refresh yields the token of an answer for its own key, valid until the time named there or 3300000 ms after it, or else the reported error |
| FoundryTokenCache.CacheHoldsLastBrought | extensions/microsoft-foundry/runtime.ts:26-32 | in every run the cache holds, per key, exactly what the latest answer for that key brought |
| FoundryTokenCache.RepliesComeFromAz | extensions/microsoft-foundry/runtime.ts:70-100 | every reply is a token brought by an answer for the caller's key, from the cache only with more than 300000 ms left, or the reported error with its prefix |
| FoundryTokenCache.WaitersCanBeServed | extensions/microsoft-foundry/runtime.ts:82-96 | from every reachable state a waiting call can be completed in at most three steps, whatever `az` answers |
| BedrockDiscovery.FilterKeyIsExact | extensions/amazon-bedrock/discovery.ts:38-46 | two filters give the same key part iff they name the same providers up to case, spacing, order and repetition |
| BedrockDiscovery.KeysExactly | extensions/amazon-bedrock/discovery.ts:164-177 | calls share an entry iff they agree in region, providers, whole seconds (3600 by default) and both default sizes |
| BedrockDiscovery.CollectModels | extensions/amazon-bedrock/discovery.ts:193-207 | the loop keeps the included summaries in order, converted |
| BedrockDiscovery.DiscoveredExactly | extensions/amazon-bedrock/discovery.ts:100-147 | the models are, in order, what the usable summaries describe: active, streaming, text-producing, with an id and of a named provider |
| BedrockDiscovery.ModelExactly | extensions/amazon-bedrock/discovery.ts:133-147 | a model field by field: trimmed id, trimmed name or id, reasoning iff one of two words occurs, inputs in order of mention, window 32000 and tokens 4096 unless set to at least 1 |
| BedrockDiscovery.ProviderExactly | extensions/amazon-bedrock/discovery.ts:104-107 | the provider is the named one, else the model id up to its first dot, in lower case and trimmed |
| BedrockDiscovery.InputsExactly | extensions/amazon-bedrock/discovery.ts:67-83 | a model's inputs are the mentioned ones of text and image, each once, and text if neither is mentioned |
| BedrockDiscovery.InputsInOrder | extensions/amazon-bedrock/discovery.ts:67-83 | they stand in the order of their first mentions |
| BedrockDiscovery.ContainsExactly | extensions/amazon-bedrock/discovery.ts:85-88 | the search for the reasoning words finds a word iff it occurs at some position |
| BedrockDiscovery.Discovery.DiscoverBedrockModels | extensions/amazon-bedrock/discovery.ts:164-215 | a call up to its await takes exactly the model's call step |
| BedrockDiscovery.Discovery.ResponseArrives | extensions/amazon-bedrock/discovery.ts:193-208 | an answer settles its own request and nothing else |
| BedrockDiscovery.Discovery.FinishDiscovery | extensions/amazon-bedrock/discovery.ts:217-237 | the sender stores the value under its own start time, or deletes the entry and returns an empty list |
| BedrockDiscovery.Discovery.ServeJoiner | extensions/amazon-bedrock/discovery.ts:185-187 | a joined call gets what the promise holds, or its rejection |
| BedrockDiscovery.StepKeepsCache | extensions/amazon-bedrock/discovery.ts:180-238 | every step keeps entries exact: the mark of an open request, or a list a finished one supplied, expiring one interval after that request's call |
| BedrockDiscovery.RunKeepsInvariant | extensions/amazon-bedrock/discovery.ts:180-238 | in every interleaving entries are exact, every open request has its waiting sender, and every reply is good |
| BedrockDiscovery.EntriesHoldExactlyOne | extensions/amazon-bedrock/discovery.ts:29-33 | every reachable entry holds exactly one of a value and a request in flight |
| BedrockDiscovery.SingleFlight | extensions/amazon-bedrock/discovery.ts:180-188 | one key never has two open cached requests; an entry is in flight iff one is open |
| BedrockDiscovery.CallSendsExactlyWhenNeeded | extensions/amazon-bedrock/discovery.ts:180-215 | a call is answered from the cache iff an unexpired list of its key is stored; else it sends iff none of its key is open (always with a zero interval), or waits for the open one |
| BedrockDiscovery.SuccessIsStored | extensions/amazon-bedrock/discovery.ts:217-225 | a successful attempt stores its list for one interval from its own call, changes no other entry, and answers with it |
| BedrockDiscovery.CachedListsAreRecent | extensions/amazon-bedrock/discovery.ts:180-184 | a cached list was discovered under the caller's key by a call less than one interval older |
| BedrockDiscovery.FailureLeavesNothing | extensions/amazon-bedrock/discovery.ts:226-237 | a failed attempt removes its entry and no other; the sender gets an empty list, joiners a rejection |
| BedrockDiscovery.EveryReplyIsGood | extensions/amazon-bedrock/discovery.ts:180-238 | every reply is a recent cached list or the answer of a request of the caller's own key |
| BedrockDiscovery.RequestFinishedAfterCallBegan | extensions/amazon-bedrock/discovery.ts:185-217 | a call never relies on a request that was finished before the call began |
| BedrockDiscovery.WaitersCanBeServed | extensions/amazon-bedrock/discovery.ts:217-237 | every waiting call can be completed in at most two steps |
| ChutesCache.ModelCache.PruneExpiredCacheEntries | extensions/chutes/models.ts:479-485 | deleting during iteration removes exactly the expired entries, keeping order |
| ChutesCache.ModelCache.Lookup | extensions/chutes/models.ts:505-512 | prunes, then finds the trimmed key or nothing |
| ChutesCache.ModelCache.CacheAndReturn | extensions/chutes/models.ts:487-503 | prunes, makes room for a new key at capacity, stores in place or at the end |
| ChutesCache.RunKeepsInv | extensions/chutes/models.ts:469-512 | in every run at most 100 distinct keys, each with the last list stored for it, in the order the keys came in |
| ChutesCache.HitIsFreshAndLatest | extensions/chutes/models.ts:505-512 | a hit is the last list stored under the key, less than five minutes old |
| ChutesCache.EvictsOnlyTheFirstAtCapacity | extensions/chutes/models.ts:494-501 | a live entry of another key disappears iff a new key arrives at capacity and that entry's key came in first |
| ChutesCache.LookupHitsExactly | extensions/chutes/models.ts:505-512 | a lookup hits iff the map holds the key with a list less than 300000 ms old |
| ChutesCache.LookKeepsExactly | extensions/chutes/models.ts:479-485 | a lookup drops exactly the lists that are 300000 ms old or older |
| ChutesCache.NewEntryLasts | extensions/chutes/models.ts:487-503 | a list stored under a new key stays for five minutes unless a hundred others are stored |
| PosixPaths.CommonIsLongest | scripts/load-channel-config-surface.ts:112 | the shared part of two paths is their longest common prefix |
| PosixPaths.ResolveOneMore | scripts/load-channel-config-surface.ts:67 | "." and "" change nothing, ".." takes a segment back, any other segment is appended |
| PosixPaths.RelativeLeadsBack | scripts/load-channel-config-surface.ts:133-140 | resolving the relative path from a to b at a gives b |
| CommonAncestor.ResolvePackageRoot | scripts/load-channel-config-surface.ts:20-32 | the nearest directory above the module that holds package.json, or an error iff there is none |
| CommonAncestor.ResolveCommonAncestor | scripts/load-channel-config-surface.ts:104-121 | the nested climbing loops end at a prefix of the first path of known depth; an empty list is an error |
| CommonAncestor.AncestorIsDeepestExactly | scripts/load-channel-config-surface.ts:104-121 | the result is the deepest common ancestor iff the topmost path is not listed below which the first lies |
| CommonAncestor.GuardAtRoot | scripts/load-channel-config-surface.ts:112-116 | at the root the loop guard is false, so the early return is unreachable |
| ImportGraph.PushTargets | scripts/load-channel-config-surface.ts:88-98 | one file pushes the files its specifiers resolve to, in order |
| ImportGraph.ExtensionIsReplaced | scripts/load-channel-config-surface.ts:49-64 | a name with an extension is tried as it is, then with each of the eight source extensions in its place, in order |
| ImportGraph.ExtensionIsAdded | scripts/load-channel-config-surface.ts:49-64 | a name without one is tried as it is, then per extension with it added and as a directory with an index file |
| ImportGraph.FirstFileExactly | scripts/load-channel-config-surface.ts:66-73 | what is found is the first candidate that is a file, every earlier one being absent; nothing iff all are absent |
| ImportGraph.ImportsExactly | scripts/load-channel-config-surface.ts:89-98 | a file imports exactly the files that its specifiers find in this way |
| ImportGraph.CollectRelativeImportGraph | scripts/load-channel-config-surface.ts:75-102 | terminates on every tree and returns exactly the files reachable through resolved relative imports, each once; fails iff the entry is missing |
| ImportGraph.ClosedHoldsReachable | scripts/load-channel-config-surface.ts:81-101 | a set closed under imports holds all that the entry reaches |
| ModuleCopy.CopyModuleImportGraph | scripts/load-channel-config-surface.ts:123-150 | copies the files of the graph below the new root, or fails iff the module or its package root is missing |
| ModuleCopy.CopyRootHoldsAll | scripts/load-channel-config-surface.ts:130-132 | on a disk where no file is a directory the copy root lies above every file and is the deepest such |
| ModuleCopy.MoveIsInjective | scripts/load-channel-config-surface.ts:138-143 | copies stay below the new root and never share a path |
| ModuleCopy.CopyAllCopies | scripts/load-channel-config-surface.ts:138-143 | after the loop the disk holds what it held and the moved files with their contents, nothing else |
| ModuleCopy.ResolveMoves | scripts/load-channel-config-surface.ts:67 | a specifier that stays within the root resolves from the copy to the copy of its target |
| ModuleCopy.RelocatesExactly | scripts/load-channel-config-surface.ts:67 | it does so iff it stays within the root; which file is then found is SpecifierMovesExactly |
| ModuleCopy.CandidatesMove | scripts/load-channel-config-surface.ts:49-64 | below the root, the candidates tried from the copy are, one by one, the moved ones |
| ModuleCopy.CandidatesAreNear | scripts/load-channel-config-surface.ts:49-64 | candidates lie beside a path or directly below it; its index files are tried iff its name has no extension |
| ModuleCopy.FirstFileMoves | scripts/load-channel-config-surface.ts:66-73 | trying them in order finds the copy of what was found, or nothing if nothing was |
| ModuleCopy.LeavingIgnoresTheCopy | scripts/load-channel-config-surface.ts:66-73 | from the copy, a specifier that leaves the root finds what it would find had nothing been copied, never a copy |
| ModuleCopy.SpecifierMovesExactly | scripts/load-channel-config-surface.ts:66-73 | any specifier of a copied file finds the copy of what it found, or nothing if it found nothing, iff a condition on the disk before the copy holds |
| ModuleCopy.ResolvedMovesExactly | scripts/load-channel-config-surface.ts:66-73 | a specifier that found a file finds its copy iff it stays within the root and, where it names the root, the temporary directory's name has no extension |
| ModuleCopy.ImportsMove | scripts/load-channel-config-surface.ts:66-98 | a copied file imports exactly the copies of what it imported, in order |
| ModuleCopy.ImportsMoveExactly | scripts/load-channel-config-surface.ts:75-102 | where every specifier of a copied file found a file, its import list moves as a whole iff each specifier keeps its meaning |
| ModuleCopy.CopiedGraphIsTheGraphCopied | scripts/load-channel-config-surface.ts:123-150 | from the copied entry one reaches exactly the copies of what the entry reaches |
| ModuleCopy.CopyPreservesImports | scripts/load-channel-config-surface.ts:123-150 | the whole operation: deepest root, exact copy, same import graph, when each specifier meets the exact condition |
| DirectoryWalk.ReadEntries | scripts/check-file-utils.ts:35-47 | one directory yields its wanted files and pushes its unskipped subdirectories |
| DirectoryWalk.CollectFilesSync | scripts/check-file-utils.ts:13-51 | the stack loop ends and lists the walk of the tree, subdirectories last first |
| DirectoryWalk.WalkFindsExactly | scripts/check-file-utils.ts:24-48 | a path is listed iff its names lead to a wanted file through readable, unskipped directories; the start is never skipped |
| DirectoryWalk.WalkListsOnce | scripts/check-file-utils.ts:24-48 | each file is listed once |
| DirectoryWalk.StackVisitsLikeRecursion | scripts/check-file-utils.ts:13-51 | up to order the stack visits what plain recursion visits |
| PairNotify.Notifier.HandleNotifyCommand | extensions/device-pair/notify.ts:344-456 | a command makes exactly the model's step on the file, written only if the state changed |
| PairNotify.Notifier.NotifyPendingPairingRequests | extensions/device-pair/notify.ts:281-342 | a poll sends exactly the model's messages and makes its step; the changed flag is false only when the state is unchanged |
| PairNotify.UpsertNotifySubscriber | extensions/device-pair/notify.ts:184-206 | update in place, append or leave alone; the flag is true iff the list changed |
| PairNotify.NotifyAll | extensions/device-pair/notify.ts:308-321 | one request goes to every subscriber it concerns, in order |
| PairNotify.RoundExactly | extensions/device-pair/notify.ts:308-321 | a round sends exactly once to each subscriber it concerns, in order, and reports the answer for that subscriber |
| PairNotify.PolledStep | extensions/device-pair/notify.ts:301-326 | an unmarked request adds its round to the sends, and a mark at the poll's time if anyone was told; a marked one adds nothing |
| PairNotify.FindIndex | extensions/device-pair/notify.ts:190 | the first subscriber with the key, or none |
| PairNotify.ThreadPrintsDecimal | extensions/device-pair/notify.ts:152-158 | an integer thread id prints in decimal, without leading zeros |
| PairNotify.ThreadsPrintApart | extensions/device-pair/notify.ts:152-158 | two integer thread ids print alike iff they are the same |
| PairNotify.KeysTellChatsApart | extensions/device-pair/notify.ts:152-158 | without bars in addresses and accounts, keys are equal iff address, account and printed thread are |
| PairNotify.KeyIsSafeExactly | extensions/device-pair/notify.ts:152-158 | no other chat shares a chat's key iff none of its parts holds a bar |
| PairNotify.NewChatIsAdded | extensions/device-pair/notify.ts:184-206 | `on` or `once` from a chat that is not listed appends exactly that subscriber |
| PairNotify.TopicsAreSeparate | extensions/device-pair/notify.ts:184-206 | `on` in two topics of one chat lists both |
| PairNotify.RemovedExactly | extensions/device-pair/notify.ts:415-426 | removing takes out the first entry with the key and keeps the others in order |
| PairNotify.TargetIsFirstAddress | extensions/device-pair/notify.ts:166-182 | the address is the first non-blank of sender, origin and destination, trimmed, or there is no target iff all are blank; account and thread are kept |
| PairNotify.NormalizingSettles | extensions/device-pair/notify.ts:81-118 | loading cleans every subscriber, and cleaning again changes nothing |
| PairNotify.PollReadsBack | extensions/device-pair/notify.ts:281-342 | what the next load reads is what the poll computed, without marks no load keeps, whether or not it was written |
| PairNotify.CommandReadsBack | extensions/device-pair/notify.ts:378-426 | what the next load reads after a command: found under the key as given, stored trimmed |
| PairNotify.KeyStableExactly | extensions/device-pair/notify.ts:81-164 | a key survives writing and reading iff its parts need no trimming |
| PairNotify.CommandKeepsKeysDistinct | extensions/device-pair/notify.ts:378-426 | a command of a chat with a stable key keeps keys distinct |
| PairNotify.RunKeepsKeysDistinct | extensions/device-pair/notify.ts:184-426 | over every run of commands and polls the loaded keys are pairwise distinct |
| PairNotify.OffUndoesOnExactly | extensions/device-pair/notify.ts:405-426 | for an unlisted chat `off` restores the state before `on` or `once` iff the key is stable |
| PairNotify.TwiceIsListedOnceExactly | extensions/device-pair/notify.ts:184-206 | from any list with distinct keys, the same command twice lists a new chat once iff its key is stable |
| PairNotify.SendsAreJustified | extensions/device-pair/notify.ts:229-250 | every message concerns a pending request without a recent mark; a one-shot subscriber only hears of requests stamped at or after arming |
| PairNotify.RequestReachesExactly | extensions/device-pair/notify.ts:229-304 | a request listed once is sent to a subscriber iff it has no recent mark, its id is no inherited property name, and the subscriber is persistent or was armed no later than its stamp |
| PairNotify.UnmarkedIsSent | extensions/device-pair/notify.ts:301-321 | at its first mention an unmarked request is sent to every subscriber it concerns |
| PairNotify.PollDropsExactlyTheServed | extensions/device-pair/notify.ts:327-336 | with distinct keys a poll drops exactly the one-shot subscribers that got a message, and no persistent one |
| PairNotify.MarksArePendingAndRecent | extensions/device-pair/notify.ts:292-297 | after a poll every mark belongs to a pending request and is at most 24 hours old |
| PairNotify.MarksExactly | extensions/device-pair/notify.ts:292-326 | after a poll a request is marked iff it was marked recently and is pending, or anyone was told of it (with an id that is not blank and a clock past zero); the mark's time is the poll's or the old one |
| PairNotify.NoSuccessNoMark | extensions/device-pair/notify.ts:323-326 | without a successful send a request's mark does not change, so it is tried again |
| PairNotify.DeliveryChangesMarks | extensions/device-pair/notify.ts:323-326 | a poll that delivered anything changed the marks, so it is always saved |
| PairNotify.SuccessLeavesMark | extensions/device-pair/notify.ts:323-341 | a success can be read back as a mark iff the id is not blank and the clock is past zero |
| PairNotify.MarkSurvives | extensions/device-pair/notify.ts:281-426 | a recent mark of a pending request outlives any command or poll |
| PairNotify.RequestIsAnnouncedOnce | extensions/device-pair/notify.ts:281-342 | over every run, once anyone was told, no later poll sends the request while it stays pending and the success is at most 24 hours old |
| PairNotify.AnnouncedOnceWithinAPoll | extensions/device-pair/notify.ts:301-327 | within a poll nothing more is sent about a delivered request, even if listed again |
| PairNotify.AnnouncedAgainExactly | extensions/device-pair/notify.ts:123-133 | with a persistent subscriber the next poll repeats a delivered pending request iff its id is blank, the clock was not past zero, or the mark is over a day old |
| JsText.TrimDropsBlankEnds | extensions/phone-control/index.ts:40 | trimming drops blanks at the two ends and nothing else |
| JsText.BlanksAre | extensions/phone-control/index.ts:40 | the 25 code points that ECMAScript counts as blank |
| OrderedNames.UniqSorted | extensions/phone-control/index.ts:39-41 | sorted without repeats, holding exactly the trimmed non-blank names |
| OrderedNames.LessExactly | extensions/phone-control/index.ts:39-41 | the order is that of a dictionary: the smaller character at the first difference, or the shorter text |
| OrderedNames.CanonicalFormIsExact | extensions/phone-control/index.ts:39-41 | equal canonical forms iff the same names |
| OrderedNames.CanonicalIsStable | extensions/phone-control/index.ts:39-41 | canonical lists are fixed points |
| PhoneControl.Permit | extensions/phone-control/index.ts:397-410 | the two sets after arming, and exactly which commands moved |
| PhoneControl.TakeOff | extensions/phone-control/index.ts:212-216 | removes the saved commands and reports those that were there |
| PhoneControl.PutBack | extensions/phone-control/index.ts:205-222 | puts the saved commands back and reports those that were missing |
| PhoneControl.Plugin.ArmGroup | extensions/phone-control/index.ts:392-425 | new lists and a new undo record, overwriting any older one |
| PhoneControl.Plugin.DisarmNow | extensions/phone-control/index.ts:187-239 | lists after disarming, no record left, and what the result reports |
| PhoneControl.Plugin.Handle | extensions/phone-control/index.ts:360-425 | authorization and the branches of the command |
| PhoneControl.Plugin.ExpiryTick | extensions/phone-control/index.ts:301-315 | disarms iff a record has expired |
| PhoneControl.ArmMovesExactlyTheCommands | extensions/phone-control/index.ts:395-425 | commands become allowed and stop being denied, no other name moves, and the record lists exactly what moved |
| PhoneControl.DisarmMovesOnlySavedCommands | extensions/phone-control/index.ts:198-232 | whatever edits came between, only names in the record move |
| PhoneControl.DisarmUndoesArm | extensions/phone-control/index.ts:187-239 | both lists return, in canonical form, to what they were before the arm |
| PhoneControl.SecondArmForgetsTheFirst | extensions/phone-control/index.ts:417-425 | after two arms one disarm goes back to the first arm, and to the start iff the first arm changed nothing |
| PhoneControl.TickDisarmsAtExpiry | extensions/phone-control/index.ts:301-315 | a tick at or past expiry leaves no record, an earlier one changes nothing |
| PhoneControl.GroupsExactly | extensions/phone-control/index.ts:33-48 | the commands of each group, by name |
| PhoneControl.ArmHoldsUntilExpiry | extensions/phone-control/index.ts:301-425 | a permitted arm at t for d (600000 ms unless given) stands through reports, refused commands and ticks before t + d; the first later tick, or a permitted disarm, restores the lists and leaves no record |
| PhoneControl.RecordLeadsBack | extensions/phone-control/index.ts:187-425 | in every run without outside edits disarming leads to the lists before the last arm |
| PhoneControl.AlternatingRunsReturn | extensions/phone-control/index.ts:187-425 | runs that never arm twice in a row return to the initial lists whenever disarmed |
| OutboundChunker.ChunkTextForOutbound | extensions/matrix/runtime-api.ts:38-52 | the loop produces the specified chunks; empty text gives one empty chunk |
| OutboundChunker.LoopEndsExactlyWhen | extensions/matrix/runtime-api.ts:41-47 | the loop ends iff the limit is positive, or zero with blank text |
| OutboundChunker.CutPoint | extensions/matrix/runtime-api.ts:42-44 | a turn cuts at the last newline or space (10 or 32) after the first unit of the window, or at its end if there is none |
| OutboundChunker.TurnSplits | extensions/matrix/runtime-api.ts:42-46 | one turn: chunk, blank gap and rest are what remained |
| OutboundChunker.TextIsChunksAndBlanks | extensions/matrix/runtime-api.ts:38-52 | the text is its chunks with blank gaps between; chunks fit the limit, start with ink after the first, and a word is cut only where a full window has no break |
| OutboundChunker.TwoTurnsConsumeALimit | extensions/matrix/runtime-api.ts:41-47 | two consecutive turns consume at least `limit` units |
| OutboundChunker.ChunkCount | extensions/matrix/runtime-api.ts:38-52 | at most 2 * floor(n / limit) + 1 chunks |
| Utf16Safe.SliceUtf16Safe | src/utils.ts:238-265 | clamps, orders and adjusts the bounds so that no pair is split |
| Utf16Safe.BoundsExactly | src/utils.ts:241-248 | bounds count from the start, or from the end if negative, stop at the ends, and are put in order |
| Utf16Safe.TailSlice | src/utils.ts:238-265 | a negative start alone gives that many last units, one fewer if they would begin inside a pair |
| Utf16Safe.SliceKeepsPairing | src/utils.ts:250-264 | a unit of the slice is unpaired iff it was unpaired at its place in the input |
| Utf16Safe.SliceStaysWellFormed | src/utils.ts:238-265 | well-formed text stays well-formed |
| Utf16Safe.WellFormedExactly | src/utils.ts:230-236 | text without unpaired surrogates is exactly what encoding characters in UTF-16 gives |
| Utf16Safe.SliceIsLargest | src/utils.ts:250-264 | every range within the bounds that splits no pair at its ends is inside the slice |
| Utf16Safe.TruncateUtf16Safe | src/utils.ts:267-273 | the whole text if it fits, else the safe slice up to the floored limit |
| Utf16Safe.LimitExactly | src/utils.ts:268 | the limit is rounded down and never negative |
| Utf16Safe.TruncationIsAPrefix | src/utils.ts:267-273 | a prefix within the limit, one unit shorter than it iff the limit splits a pair |
| Utf16Safe.TruncationsCompose | src/utils.ts:267-273 | truncating twice is truncating to the smaller limit, hence idempotent |
| Utf16Safe.TruncationKeepsWholeCharacters | src/utils.ts:267-273 | encoded text is cut to the longest run of whole leading characters that fits |
| LoginTail.Capture.AppendBoundedChunk | extensions/microsoft-foundry/cli.ts:153-164 | appends, drops from the front until it fits, and keeps the length exact |
| LoginTail.FittingIsASuffix | extensions/microsoft-foundry/cli.ts:159-162 | what is kept is a suffix of the chunks, of at most 8000 units in all |
| LoginTail.FittingIsLongest | extensions/microsoft-foundry/cli.ts:159-162 | no suffix of more chunks has at most 8000 units |
| LoginTail.FittingIsIncremental | extensions/microsoft-foundry/cli.ts:153-164 | trimming after each append keeps what trimming once at the end would |
| LoginTail.CaptureIsTheLongestTail | extensions/microsoft-foundry/cli.ts:149-174 | after any appends the stream holds that suffix of all non-empty chunks ever appended |
| PermissionArgs.NormalizeClaudePermissionArgs | extensions/anthropic/cli-shared.ts:44-76 | the index loop is the rewrite of the argument list read as options |
| PermissionArgs.ParseUnparse | extensions/anthropic/cli-shared.ts:51-71 | reading arguments as options loses nothing |
| PermissionArgs.UnparseParse | extensions/anthropic/cli-shared.ts:51-71 | spelled-out options are read back as themselves |
| PermissionArgs.RewriteInOptions | extensions/anthropic/cli-shared.ts:51-75 | the result, read again, is the input without the flag plus the bypass mode iff needed |
| PermissionArgs.OptionsAre | extensions/anthropic/cli-shared.ts:51-66 | how arguments are read, with the three spellings written out |
| PermissionArgs.RewriteExactly | extensions/anthropic/cli-shared.ts:51-75 | every option but the flag is kept once and in order, and the bypass mode is appended iff there was a flag and no mode was given, --permission-mode= included |
| PermissionArgs.LegacyGoneModePresent | extensions/anthropic/cli-shared.ts:53-74 | no flag is left as an option, and a mode is set whenever one was removed |
| PermissionArgs.LegacyOnlyAsValue | extensions/anthropic/cli-shared.ts:51-75 | in the returned arguments the flag occurs only as the value right after --permission-mode |
| PermissionArgs.RewriteIsIdempotent | extensions/anthropic/cli-shared.ts:44-76 | rewriting twice changes nothing more |
| SnakeCase.AcronymPass | src/param-key.ts:3 | the greedy, backtracking pass marks the last capital of a run before a lowercase letter |
| SnakeCase.WordPass | src/param-key.ts:4 | the second pass marks capitals after a lowercase letter or digit |
| SnakeCase.PassesMerge | src/param-key.ts:3-4 | the second pass never reacts to the first one's underscores |
| SnakeCase.SnakeCaseIsPointwise | src/param-key.ts:1-6 | the passes and lowercasing equal one rule applied character by character |
| SnakeCase.SnakeCaseIsLosslessAndIdempotent | src/param-key.ts:1-6 | only underscores are inserted, and converting again changes nothing |
| FailingInputs.AncestorTooDeep | scripts/load-channel-config-surface.ts:104-121 | for /a/b/c and /a the result is /a/b |
| FailingInputs.DottedNameLosesIndex | scripts/load-channel-config-surface.ts:123-150 | a package in the directory pkg.v2: the copied a.ts no longer finds index.ts |
| FailingInputs.LeavesTheRoot | scripts/load-channel-config-surface.ts:66-73 | ../../a from below the root /r means something else from the copy |
| FailingInputs.CollidingKeys | extensions/microsoft-foundry/shared-runtime.ts:10-15 | "a:b" with "c" and "a" with "b:c" share a key and ask for different tokens |
| FailingInputs.JoinerIsRejected | extensions/amazon-bedrock/discovery.ts:185-237 | of two calls sharing a failed request the first gets an empty list, the second the rejection |
| FailingInputs.PaddedAccount | extensions/device-pair/notify.ts:184-426 | with the account id " a", `off` does not undo `on`, and `on` twice lists the chat twice |
| FailingInputs.BarsCollide | extensions/device-pair/notify.ts:152-158 | two chats with bars in their parts share a key |
| FailingInputs.BlankIdRepeats | extensions/device-pair/notify.ts:123-133 | a request with the id " " is announced by two polls in a row |
| FailingInputs.ConstructorIsNeverSent | extensions/device-pair/notify.ts:301-304 | a request with the id "constructor" is never announced |
| FailingInputs.CameraStaysAllowed | extensions/phone-control/index.ts:392-425 | arming camera and then writes, one disarm leaves the camera commands allowed |
| FailingInputs.ZeroLimitLoops | extensions/matrix/runtime-api.ts:41-47 | with limit 0 the text "x" is never used up |

## Left out

Weaker than the source in some respect:

- BedrockDiscovery.CollectModels: the final sort by `localeCompare` is not modelled, because its order depends on the locale; lists are in response order.
- BedrockDiscovery.Discovery.DiscoverBedrockModels: a client factory that throws, and the JSON text of the key (a record here), are not modelled.
- OutboundChunker.ChunkTextForOutbound: the method covers the inputs on which the loop ends; LoopEndsExactlyWhen shows which those are.
- ModuleCopy.CopyModuleImportGraph: the directory made for the copy is a parameter; file errors while copying are not modelled.
- ModuleCopy.CopyPreservesImports: the target directory is fresh: nothing is in it, and no file is a candidate for its own name.
- ModuleCopy.SpecifierMovesExactly: the fresh directory's name occurs in no specifier, as a random name does not.
- PhoneControl.Plugin.ArmGroup: the config file and the record are written in one step; a failure between the two writes is not modelled.
- PairNotify.Notifier.HandleNotifyCommand: the reply texts are not modelled.
- PairNotify.Notifier.NotifyPendingPairingRequests: one poll is one step, so a command that runs between its reads and its write is not modelled; send results come from an oracle.
- OrderedNames.UniqSorted: names are ordered by code point, which differs from the source's UTF-16 order only for characters beyond U+FFFF.
- Utf16Safe.SliceUtf16Safe: bounds are integers; NaN and fractional bounds are not modelled.
- DirectoryWalk.CollectFilesSync: the tree does not change during the walk, and paths are kept as their segments.

Not modelled:

- Network, `az`, Telegram and file calls: their results are parameters or events.
- Foundry's check for the dynamic-token marker and its base-URL computation: one-branch configuration.
- The error log flag of Bedrock discovery and the test-only reset functions, which clear the caches by design.
- The Chutes HTTP request, its retry without a key and its response parsing: a store event may carry any key and list.
- The regular expression that finds import specifiers: each file comes with its specifiers. Windows separators and symbolic links.
- Thread ids beyond 10^21, which JavaScript prints with an exponent. Wrongly typed fields, fractional numbers and a missing `addedAtMs` in the pairing state file; request texts.
- Parsing of `/phone` arguments, durations and status texts.
- Lowercasing beyond ASCII letters.
- `readSnakeCaseParamRaw`, `isCodeFile` and an undefined argument list: easy members.
