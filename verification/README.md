# A verified model of SkillRegistry

SkillRegistry keeps AI skills: it loads and validates them, resolves their dependencies, stores them, and executes
them under a concurrency limit. This project models that behaviour in Dafny and proves what a caller relies on.

## The parts

| file | models |
|---|---|
| `Skills.dfy` | skills, definitions, errors (`types.go`) |
| `DependencyGraph.dfy` | graphs of skill identifiers: reachability, cycles, the closed-and-acyclic invariant |
| `Resolver.dfy` | the depth-first dependency search (`validator.go`) |
| `Regex.dfy`, `Identifiers.dfy`, `SemVer.dfy` | regular expressions with a meaning, and the identifier and version languages (`validator.go`) |
| `Strings.dfy`, `Utf8.dfy`, `Validator.dfy` | library string operations, with the byte-wise length and order of strings; field and dependency validation (`validator.go`) |
| `Registry.dfy` | the registry as a machine over dependency graphs, over whole runs (`manager.go`) |
| `NameIndex.dfy`, `MemoryStorage.dfy` | the in-memory storage and its name index (`storage_memory.go`) |
| `Queries.dfy`, `Manager.dfy` | filters and sorting; the manager object over a storage (`types.go`, `manager.go`) |
| `Pipeline.dfy`, `Execution.dfy` | one execution, as a value and as an object (`executor.go`, `types.go`) |
| `Concurrency.dfy` | workers, semaphore, channels, callers and timers under every interleaving (`executor.go`) |
| `Loader.dfy` | front matter and identifier generation (`loader.go`) |
| `Scenarios.dfy` | two call sequences with outcomes that are easy to overlook (`manager.go`) |

Objects whose methods assign fields are classes with those fields; their methods are proved against functions on values
(`Registry.Step`, `NameIndex.After`, `Pipeline.Outcome`), and the lemmas are about those functions. Skills are shared
heap objects: the manager's map and the storage's map hold the same object, as the Go pointers do. The skill fields that
no code in the repository assigns after construction are constants, which says that callers do not rename a registered
skill or edit its definition.

Inputs from outside are parameters: `now` and `savedAt` are the two clock readings of one call (a time of `None` is the
zero time), `generated` is the identifier the storage would invent, `outage` makes the storage refuse that call before it
touches anything (a cancelled context or an unavailable back end). Map iteration picks keys in an arbitrary order.

Each section the manager runs under its lock is one step. `Register` checks the fields before it takes the lock, which
reads nothing shared. `LoadFromDirectory` locks once per entry, so its contract is about a loop that runs alone.
`InitializeFromStorage` lists the storage before it takes the lock; the locked half is `Manager.SkillManager.MergeListed`,
which takes the list as a snapshot the storage may have moved on from.

## What was found

- `UpdateSkill` never consults the dependency resolver. An update can close a cycle or name a missing skill
  (`Registry.UpdateCanBreak`). It keeps the graph closed and acyclic exactly when the resolver would have accepted the
  new dependency list (`Registry.UpdateConsistentIff`). A cycle is for good as far as `Unregister` goes: a registry can
  be emptied by `Unregister` calls exactly when it is acyclic (`Registry.EmptiableIffAcyclic`).
- `MemoryStorage.Save` leaves the old name of a renamed skill in the index, and `Delete` drops a name without asking who
  owns it (`NameIndex.IndexCanDrift`). The index stays exact exactly under the discipline of `NameIndex.Disciplined`
  (`NameIndex.ExactIff`).
- The version check accepts one string outside Semantic Versioning 2.0.0, the empty one
  (`Validator.EmptyVersionNotSemver`).
- When a save fails, `Enable` and `Disable` have already changed the shared skill; `Register`, `Unregister` and
  `UpdateSkill` leave both manager maps as they were. On a registered identifier `Enable` then reports an error and the
  skill is active all the same (`Scenarios.EnableDuringOutage`). A `Register` whose save failed has disabled and stamped
  the caller's skill; every other refusal leaves it as it was (`Manager.SkillManager.Register`).
- An `Unregister` between the two halves of `InitializeFromStorage` comes back in the manager and not in the storage
  (`Scenarios.StaleSnapshot`). A coherent manager stays coherent exactly when every listed skill is still the stored one
  (`Manager.SkillManager.MergeListed`).

## Model

| member | source | states |
|---|---|---|
| Resolver.DependencyResolver.DetectCycle | validator.go:260-308 | every call, nested or not, terminates; without error it restores the stack, keeps finished and open nodes apart and finished nodes edge-closed and fault-free; an error names a real cycle or missing skill reachable from the root; calls are bounded by the fanout of the nodes it entered |
| Resolver.DependencyResolver.DetectCycleFromReset | validator.go:240-250 | from a reset resolver, no error exactly when everything below the root is registered and no cycle is reachable, for every skill map; at most 1 + outdeg(root) + the argument list + twice all other out-degrees calls |
| Resolver.DependencyResolver.FollowOne | validator.go:274-285 | following one dependency either finishes it as a registered, fault-free node or reports a real fault below the root |
| Resolver.DependencyResolver.Reset | validator.go:255-258 | both marks are empty |
| Resolver.FinishedIsSettled | validator.go:304-305 | a node whose dependencies are finished and registered can be marked finished: it lies on no cycle and reaches none |
| Resolver.SearchBudget | validator.go:260-308 | the cost of any set of entered nodes is linear in the edges of the skill map |
| Validator.SkillValidator.ValidateSkillDependencies | validator.go:235-253 | accepts exactly resolvable dependency lists (an empty list is never examined); every error names a real missing skill or cycle; among missing direct dependencies the first in the list is reported |
| Validator.SkillValidator.ValidateSkill | validator.go:32-76 | accepts exactly the skills whose fields all meet their written-out conditions; every other input is the invalid-skill error |
| Validator.ValidateParameters | validator.go:202-229 | accepts exactly lists of named, pairwise differently named parameters of known kinds |
| Validator.ValidateLabels | validator.go:160-184 | accepts exactly lists of non-blank labels within the byte limit |
| Validator.ValidateID | validator.go:94-105 | the pattern and length check accept exactly 1 to 100 bytes of lower-case letters, digits, hyphens and underscores with alphanumeric ends |
| Validator.ValidateVersion | validator.go:123-134 | accepts the empty string and exactly the valid versions of Semantic Versioning 2.0.0 |
| Strings.BlankIsAllSpace | validator.go:78-92 | a string trims to nothing exactly when it holds only white space |
| Strings.SpacesAreListed | validator.go:78-92 | white space is exactly the 25 code points Unicode lists |
| Utf8.ByteLengthIsEncoding | validator.go:95 | the length the checks bound is that of the UTF-8 encoding |
| Validator.EmptyVersionNotSemver | validator.go:124-126 | the empty string is the only accepted version outside the grammar |
| Identifiers.IdPatternIsScan | validator.go:99 | the identifier pattern equals a first, middle, last character scan |
| Regex.MatchStringCorrect | validator.go:100-129 | the anchored matcher decides the language of every expression on every string |
| Regex.DerivativeMatches | validator.go:100-129 | the derivative of an expression is the language of what may follow a character |
| SemVer.VersionPatternIsParse | validator.go:128 | the version pattern accepts exactly the strings that parse into core, pre-release and build parts |
| SemVer.PatternIsGrammar | validator.go:128-131 | the version pattern accepts exactly the language of the Semantic Versioning 2.0.0 grammar, production by production |
| SemVer.ParseOfPrint | validator.go:128 | parsing a printed well-formed version gives it back |
| SemVer.PrintOfParse | validator.go:128 | what parses is well-formed and prints as the string it came from |
| SemVer.PrintInjective | validator.go:128 | an accepted string splits in only one way |
| SemVer.DotSeparatedIsSplit | validator.go:128 | a dotted list of identifiers is a string all of whose dot-separated pieces are identifiers |
| DependencyGraph.FreshKeepsConsistent | manager.go:50-73 | adding an unused identifier with registered dependencies keeps the graph closed and acyclic |
| DependencyGraph.RemovalKeepsConsistent | manager.go:90-104 | removing a skill nobody depends on keeps the graph closed and acyclic |
| DependencyGraph.RemovalKeepsAcyclic | manager.go:90-104 | removing any identifier from an acyclic graph leaves it acyclic, closed or not |
| DependencyGraph.RemovalKeepsCycles | manager.go:90-104 | removing an identifier nobody depends on leaves the graph cyclic if it was |
| DependencyGraph.SomeoneUnneeded | manager.go:90-98 | every non-empty acyclic registry has a skill that Unregister will not refuse for its dependents |
| DependencyGraph.RankedAcyclic | manager.go:50-56 | a rank falling along every edge rules out cycles |
| Registry.FreshAccepted | validator.go:235-253 | in a consistent registry the whole search on a new identifier answers like a look-up of its direct dependencies |
| Registry.UpdateConsistentIff | manager.go:296-323 | an update keeps the graph consistent exactly when the resolver would accept the new list |
| Registry.UpdateCanBreak | manager.go:309-320 | concrete updates that close a cycle and that dangle |
| Registry.StepConsistentIff | manager.go:38-323 | one manager call keeps the graph consistent exactly when it is not an update the resolver would refuse |
| Registry.EveryRunConsistent | manager.go:38-108 | after every careful run from an empty manager the graph is closed and acyclic, and a valid new skill registers exactly when its direct dependencies are registered |
| Registry.ReachableIffConsistent | manager.go:38-79 | the graphs careful runs reach are exactly the closed acyclic ones |
| Registry.RanksFallOnEveryRun | manager.go:38-323 | over runs whose successful updates add no dependency, the graph stays closed and acyclic and the registration rank falls along every edge, also across re-registration |
| Registry.CanBeEmptied | manager.go:81-108 | some order of exactly as many Unregister calls as there are skills, all successful, empties an acyclic registry, closed or not |
| Registry.EmptiableIffAcyclic | manager.go:81-108 | Unregister calls alone can empty a registry exactly when it is acyclic |
| Registry.LoadSucceedsIff | manager.go:252-260 | from any registry, the batch loop succeeds exactly when each entry, in the graph merged from those before it, is valid and either a duplicate or saved and accepted by the resolver; then the whole list is merged |
| Registry.ConsistentLoad | manager.go:252-260 | from a consistent registry the loop succeeds exactly when each first occurrence of a new identifier depends only on skills before it, all entries being valid and first ones saved; the graph stays consistent |
| Registry.LoadStopsAtFirstMisfit | manager.go:252-258 | from any registry, on an error exactly the entries before the first misfit were added |
| Registry.FirstOccurrenceWins | manager.go:252-258 | a new identifier is registered with the dependencies of its first occurrence |
| Registry.MergedKeys | manager.go:252-258 | merging registers every listed identifier and touches no older entry |
| NameIndex.ExactIff | storage_memory.go:65-302 | a Save, Update, Delete or Clear keeps the name index the exact inverse of the names exactly when it follows the naming discipline |
| NameIndex.IndexCanDrift | storage_memory.go:68-145 | a rename through Save leaves a stale name; deleting one of two namesakes hides the other |
| NameIndex.LookupsAfter | storage_memory.go:65-302 | what each call does to a look-up by name, from any store, drifted or not |
| NameIndex.LookupIsScan | storage_memory.go:101-124 | after every disciplined run a look-up by name answers like a scan of all skills |
| MemoryStorage.MemoryStorage.Save | storage_memory.go:43-72 | which saves fail and with what error; a failure changes neither map; a success files the skill under its identifier and name and stamps it; an empty identifier becomes the invented one, which overwrites nothing if it is new |
| MemoryStorage.MemoryStorage.Update | storage_memory.go:274-302 | succeeds exactly for a stored identifier, with the exact error otherwise; moves the name entry; keeps the creation time |
| MemoryStorage.MemoryStorage.Delete | storage_memory.go:127-148 | succeeds exactly for a stored identifier, with the exact error otherwise; removes the skill and the entry of its current name |
| MemoryStorage.MemoryStorage.Load | storage_memory.go:80-98 | returns the stored skill exactly when there is one, and the exact error otherwise |
| MemoryStorage.MemoryStorage.LoadByName | storage_memory.go:101-124 | fails with the exact error; with an exact index, finds a skill exactly when one has that name, and it is the only one |
| MemoryStorage.MemoryStorage.List | storage_memory.go:151-165 | every stored skill, each once |
| MemoryStorage.MemoryStorage.Clear | storage_memory.go:252-258 | both maps are empty |
| Manager.SkillManager.constructor | manager.go:23-36 | starts empty; without a given storage it is coherent with a new one |
| Manager.SkillManager.Register | manager.go:38-79 | succeeds exactly for a valid skill with a new identifier, an accepted dependency list and a working storage; each error has its exact cause, and a dependency error names a real missing skill or cycle, the first missing direct dependency if there is one; never reports a cycle in a consistent registry; an error leaves all maps unchanged, and the skill too unless its save failed; a success leaves it filed, disabled and stamped; manager and storage keep holding the same skills |
| Manager.SkillManager.Unregister | manager.go:81-108 | which of the refusals each call meets: unknown identifier, a dependent skill, an unavailable storage, or a skill the storage does not hold, which over a coherent storage does not happen; an error leaves all maps unchanged |
| Manager.SkillManager.FindDependent | manager.go:90-98 | the search over all skills finds a dependent exactly when there is one |
| Manager.SkillManager.Enable | manager.go:196-210 | activates the shared skill even when the save fails, keeping an existing creation time; over a coherent working storage it does not fail |
| Manager.SkillManager.Disable | manager.go:212-226 | deactivates the shared skill even when the save fails, keeping an existing creation time; over a coherent working storage it does not fail |
| Manager.SkillManager.UpdateSkill | manager.go:296-323 | succeeds exactly for a valid skill with a known identifier and a working storage; each error has its exact cause; keeps the creation time and the status the new skill brings; does not look at dependencies; an error leaves all maps unchanged |
| Manager.SkillManager.LoadFromDirectory | manager.go:246-261 | ends in the graph the batch machine prescribes; files new identifiers under their first skill, disabled, stamped and saved under their names in list order, so nothing new is active; skills registered before, duplicates and refused skills keep all their fields, except one whose save failed, which stays prepared |
| Manager.SkillManager.MergeListed | manager.go:420-428 | files every listed skill over what is there; a coherent manager stays coherent exactly when each listed skill is still the stored one; a fresh manager becomes the listed snapshot, with its graph |
| Manager.SkillManager.InitializeFromStorage | manager.go:414-431 | both halves without interference: adds exactly the stored skills; a fresh manager becomes a copy of the storage, with its graph; a refused listing changes nothing |
| Manager.SkillManager.Get | manager.go:110-120 | returns the registered skill or the not-found error |
| Manager.SkillManager.Filter | manager.go:178-194 | a permutation of exactly the matching skills, each once, in ascending order of names, for every map order |
| Manager.SkillManager.CountActive | manager.go:332-344 | the number of skills the enabled-and-active filter selects |
| Manager.SkillManager.GetTags | manager.go:369-388 | exactly the tags in use, strictly increasing |
| Scenarios.EnableDuringOutage | manager.go:205-209 | the call fails and the storage map is unchanged, yet exactly a registered skill is active afterwards |
| Scenarios.StaleSnapshot | manager.go:415-428 | a skill unregistered between listing and merging is registered again, absent from the storage, and the two are no longer coherent |
| Queries.Matches | types.go:256-285 | true exactly when every given criterion holds |
| Queries.Contains | types.go:287-290 | the recursion never slices out of range and holds exactly when the substring occurs at some offset |
| Queries.SortCorrect | manager.go:189-191 | sorting by a key gives an ascending permutation |
| Strings.StringLessIff | manager.go:189-191 | the order of names and tags is the dictionary order: a proper prefix first, else the first difference decides |
| Utf8.StringLessIsByteOrder | manager.go:189-191 | comparing code points is comparing the UTF-8 bytes, as Go does |
| Skills.Skill.HasTag | types.go:205-212 | true exactly when the tag is listed |
| Pipeline.CallDiscipline | executor.go:65-103 | pre-hooks run up to and including the first failure, the handler at most once and only after all pass, every post-hook exactly when the handler ran, in order |
| Pipeline.OutcomeDiscipline | executor.go:62-105 | the result is never left running, succeeds exactly when a handler was reached and returned no error, carries the handler's output, logs and metadata or its error, names the failing pre-hook or the missing handler otherwise, and logs exactly the failing post-hooks, in index order after the handler's logs |
| Execution.SkillExecutor.constructor | executor.go:34-45 | the capacity is always at least one |
| Execution.SkillExecutor.Execute | executor.go:47-106 | refuses inactive skills before trying for a slot; blocks, having changed nothing, exactly when an active skill finds every slot taken; otherwise calls the registered pre-hooks up to the first refusal, the selected handler exactly when all accept and there is one, then every registered post-hook, in order; returns the handler's own answer on this context, or the refusal, with exactly the post-hook failures logged; gives its slot back on every path |
| Execution.SkillExecutor.GetHandler | executor.go:176-189 | a definition's own entry wins even when it is nil; otherwise the default entry, if any |
| Execution.SkillExecutor.TimeoutAnswer | executor.go:133-136 | a fresh result of this execution with status timeout, together with the timeout error |
| Execution.SkillExecutor.RegisterHandler | executor.go:140-144 | the handler table gains exactly this entry |
| Execution.SkillExecutor.AddPreExecutionHook | executor.go:152-156 | the hook joins the end of its list |
| Execution.SkillExecutor.AddPostExecutionHook | executor.go:158-162 | the hook joins the end of its list |
| Execution.SkillResult.Succeed | types.go:221-227 | status and output change, nothing else visible |
| Execution.SkillResult.Fail | types.go:229-235 | status and error change, nothing else visible |
| Execution.SkillResult.Cancel | types.go:237-242 | only the status changes |
| Execution.SkillResult.TimedOut | types.go:244-250 | status and error become those of a timeout |
| Execution.SkillResult.AddLog | types.go:252-254 | the message joins the end of the logs |
| Execution.MergeMetadata | executor.go:250-259 | two copying loops give the union of both maps, the second winning, for every map order |
| Concurrency.StepInv | executor.go:47-138 | every step keeps: tokens equal the workers past the acquire and never exceed the capacity; every worker is where the sequential execution would be; at most one, correct, outcome is under way |
| Concurrency.SendNeverBlocks | executor.go:116-126 | the worker's send succeeds at once, also after its caller has given up |
| Concurrency.OnlyFullSlotsBlock | executor.go:47-60 | a worker that has not finished is held up only at the acquire, and only while every slot is taken |
| Concurrency.SlotsShared | executor.go:59-60 | any set of admitted workers that fits the free slots can be inside at once |
| Concurrency.SomeWorkerCanMove | executor.go:59-105 | with capacity at least one, some worker can move until all have finished |
| Concurrency.StuckIsComplete | executor.go:59-138 | a state where nobody can move has all workers done, all slots free and all callers answered |
| Concurrency.RunBounded | executor.go:59-138 | no schedule is longer than the work it started with |
| Concurrency.EveryScheduleCompletes | executor.go:47-138 | every schedule stays within the capacity, is bounded, and can only end with every worker finished as in sequential execution and every caller given its result, its error, or the timeout result with the timeout error after the timer fired |
| Concurrency.AnswerIsFinal | executor.go:128-137 | a caller is answered once: its answer never changes |
| Concurrency.CallerChoices | executor.go:128-137 | a waiting caller can take the result or error exactly when its worker has sent it, and give up exactly when its timer has fired, so either may happen when both have |
| Concurrency.FiredCallerCanLeave | executor.go:133-136 | a waiting caller whose timer has fired can leave at once with the timeout result and the timeout error, moving no worker |
| Concurrency.TimeoutNeedsNoWorker | executor.go:108-137 | from every state with a waiting timed caller, the initial ones included, a run without a worker step ends with that caller timed out |
| Concurrency.AnswerReachable | executor.go:116-131 | with a free slot, a run of one worker alone ends with its waiting caller given the sequential result or the refusal, even after the timer fired |
| Loader.FrontmatterRoundTrip | loader.go:185-199 | splitting a fenced document gives back its trimmed front matter and body, whatever white space surrounds them and whatever fences the body contains |
| Loader.MalformedIff | loader.go:186-193 | a document is malformed exactly when its opening fence is never closed by a non-overlapping one |
| Loader.GenerateIDFromName | loader.go:201-215 | four rewriting passes and a filter compute the character-wise translation the following rows describe |
| Loader.SpelledInPlace | loader.go:202-212 | a name over letters, digits and separators has an identifier of its own length: letters lower-cased in place, digits kept, each separator a hyphen |
| Loader.IdOfConcat | loader.go:201-215 | the identifier of a name is put together from those of its parts |
| Loader.Contribution | loader.go:202-212 | what every single character contributes, two look-alikes from outside ASCII included |
| Loader.DroppedCharacter | loader.go:207-212 | every other ASCII character may as well be left out |
| Loader.SameIdentifier | loader.go:202-205 | names that differ only in letter case or in the choice of separators get the same identifier |
| Loader.IdAlphabet | loader.go:207-212 | a generated identifier is over lower-case letters, digits and hyphens |
| Loader.IdIdempotent | loader.go:201-215 | generating an identifier from an identifier changes nothing |
| Loader.GeneratedIdValidIff | loader.go:201-215 | a generated identifier validates exactly when it has 1 to 100 characters and no hyphen at either end |

## Left out

- File, directory, YAML and JSON decoding, and the directory walk: library input and output; the batch loop starts from the list of skills read.
- PostgreSQL storage, connection settings and the SkillStorage interface as such: the storage is the in-memory one, with refusals of any call added. A back end that applies part of a call and then reports an error is not modelled.
- The agent table of `registry.go`, translations and message texts: fixed tables and wording.
- Timestamps and durations of results, execution identifiers and metric counters (the repository never increments them): only the metric record and its identifier are kept.
- SetStorage, SetMaxConcurrency during executions, hook changes during executions, panicking or re-entrant hooks and handlers, nil skills inside maps or lists, and ExecuteWithTimeout on a nil skill.
- Manager.SkillManager.Execute, ListByCategory, Search, GetCategories, List: the same look-up and filter loops again; they would add only easy members.
- Execution.SkillExecutor.Execute: a call that finds every slot taken ends as `blocked`; that it resumes when a slot is freed is modelled in Concurrency. A hook's or handler's answer is a function of its context, which carries an arbitrary outside state.
- Concurrency.EveryScheduleCompletes: bounds the steps of hooks and handlers as single steps that return; a hook that never returns is outside the claim.
- Queries.SortCorrect: the library's sort is modelled by insertion; nothing depends on how equal names are ordered beyond the sorted permutation.
- Strings are sequences of Unicode code points, related to bytes by `Utf8.Encode`; byte strings that are not valid UTF-8 are not modelled. Lower-casing is exact where it can produce ASCII letters, which is all the identifier generator keeps.
- ValidateBatch and ValidateInputs: loops over the checks above with no state.
