# Stoat, modelled and proved

Stoat drives virtual machines, and most of it is plumbing around qemu, ssh and
files. This project models the parts whose correctness is decided by Stoat's own
logic, and proves what they promise:

- **Redactor** — the log redactor, fed a stream in arbitrary chunks;
  **RedactorSafety** has what it is for, that no secret is shown and nothing else is
  touched, and **RedactorLimits** inputs that show what its conditions are for.
- **Keys**, **Ports**, **PortRuns**, **PortLimits** — key generation and port
  allocation, as any number of processes whose calls interleave, fail and die at any
  point; saving a file is opening it, which empties it, and writing to it, and listing
  VMs is reading one file after the other.
- **TopoSort**, **Resolve**, **Planner**, **AlreadyApplied** (over **Recipes**) —
  ordering, completing and planning recipe runs.
- **Shell**, **RcLine** — quoting for POSIX shells and fish, and the wrapping of
  the installer's PATH line, against a reader of the shells' own token rules
  (IEEE Std 1003.1-2017, Shell Command Language, sections 2.2.1, 2.2.2, 2.2.3
  and 2.3).
- **RateLimit** — the two coupled token buckets of the MCP server.
- **Render**, **Reconcile**, **ReconcileLands**, **Commit**, **Host** — declarations
  against stored VMs, what a reconcile comes to field by field, the replacement of two
  files at once, and all of it on a VM's files with any call failing.
- **EditDistance** — the two-row table and what it means.
- **Sorting**, **RecipeHash**, **Namespace**, **Merge** — encodings that must lose
  nothing, and the merging of cloud-init documents.

**Text** holds the byte-string operations they share. A Go string is a sequence of
bytes, and a `char` stands for one byte.

Code that updates state in place is a class or a method with a loop, proved against
a specification function or predicate; the promises are lemmas about the
specification. Protocols between processes are labelled steps over a shared state,
and the lemmas hold for every trace. Where a promise does not hold of all inputs the
project has the condition under which it does, exact where the table says "if and
only if", and a concrete input or run on the other side: `OverlapShows`,
`MarkFeedsSecret` and `PendingCanGrow` for several secrets, `OrphanOverwrites` and
`FailingStatsFool` for keys, `HiddenPortIsGivenAway` and `DestroyedPortComesBack` for
ports, `EmptyNameEscapes`
for the rate limiter, `SecretStays`, `StrayStays`, `DroppedDriftStays` and
`SeparatorsNeeded` for reconciling, `MixedKindsDiffer` for merging, `ProvisosNeeded`
and `LetterNeeded` for the encodings.

Findings worth knowing before changing the code:

- The redactor splits no secret, however the log is chunked, as soon as no secret ends
  with the beginning of one that is no longer than it; what it shows is then the
  redacted text, unless a later secret can grow out of an inserted `<redacted>`. For a
  single secret the condition is exact: one that overlaps itself is split and shown for
  some input. For several, a text in one chunk decides.
- A killed `stoat` leaves its ssh-keygen running and its lock released. With a second
  process the orphan can overwrite the public half of a pair that the second one has
  returned; nothing in `generate` rules it out. With one process, or a pair already
  there, nothing can happen.
- `Forward` takes no lock, and `Apply` and `Start` save a record loaded without it.
  `Save` empties vm.toml before it writes, and an empty vm.toml parses with port 0: a
  `Create` that lists in between gives the VM's port away, with nobody having touched
  that VM. If the VM is destroyed, or its port changed, between the load and the save,
  the save brings back a port that another VM may have been given. Ports stay unique in
  every run exactly when there is at most one process; in a given run they do if each
  unlocked write is clear when it happens, that is, no other VM has the port or is
  about to get it by a record already chosen, a file to be renamed back or a listing
  that has passed the VM by.
- The rate limiter treats an empty tool name as the shared bucket, and then bounds
  nothing per tool.
- The bound on accepted calls does not need a clock that only moves forward, nor that
  the calls of the window come one after the other.
- `WrapRCLine`'s comment says it gives up when not even one quoted byte fits on a
  line. It already gives up when one quoted byte and the closing text do not fit
  together. The model follows the code.
- `Suggest`'s comment speaks of edit distance; the code ranks a candidate that
  contains the name at distance 1 even when it is the name itself.
- One `Reconcile` leaves drift behind exactly when a stored parameter is by now
  declared secret, or belongs to a recipe that neither list names, or (with the
  parameters otherwise equal) a declared parameter belongs to a recipe being dropped.
- When a failed `commitUpdate` cannot rename vm.toml back, the VM's record is gone
  with the stage directory.
- `mergeMaps` is associative exactly when no value of another kind stands between two
  mappings or lists of which the first has something to add.

## Model

| member | source | states |
|---|---|---|
| Redactor.SecretRedactor.constructor | internal/cli/run_access.go:188-209 | the non-empty stored secrets, longest first; nothing written or pending |
| Redactor.SecretRedactor.NonEmptyByLength | internal/cli/run_access.go:193-201 | exactly the non-empty values, in order of falling length |
| Redactor.SecretRedactor.LongestOf | internal/cli/run_access.go:202-207 | keep is the length of the longest secret |
| Redactor.LongestIsOne | internal/cli/run_access.go:202-207 | which is the length of one of them |
| Redactor.SecretRedactor.FindCut | internal/cli/run_access.go:213-231 | the nested loops find the cut point of the specification: each secret in turn moves the cut to its first occurrence across it |
| Redactor.SecretRedactor.ScanSecret | internal/cli/run_access.go:216-227 | scanning one secret, occurrence by occurrence, ends at the start of the first occurrence across the cut, if there is one |
| Redactor.SecretRedactor.Write | internal/cli/run_access.go:211-237 | after any sequence of writes the output and the pending text are those of the chunks accepted so far; a failing write keeps the pending text, and shows no more than the beginning of what it would have shown |
| Redactor.SecretRedactor.Flush | internal/cli/run_access.go:239-246 | all output is what is shown for the chunks written, if no write failed; pending is empty even if the last one did |
| Redactor.SecretRedactor.WriteRedacted | internal/cli/run_access.go:248-254 | every secret is replaced, longest first, and the writer gets the result, all of it or its beginning |
| RedactorSafety.NoSecretIsShown | internal/cli/run_access.go:248-254 | a secret of the list that has nothing to do with the mark is nowhere in what is written for a text, whatever the other secrets are |
| RedactorSafety.NoSecretIsEverShown | internal/cli/run_access.go:211-254 | nor in all that is shown for a log, however it was chunked |
| RedactorSafety.HiddenExact | internal/cli/run_access.go:248-254 | one secret that does not overlap itself is hidden in every text if and only if it has nothing to do with the mark: neither lies in the other and neither runs into the other |
| RedactorSafety.NothingToRedact | internal/cli/run_access.go:248-254 | a text without secrets is written as it is |
| RedactorSafety.CleanLogIsShown | internal/cli/run_access.go:211-254 | a log without secrets is shown as it is, however it was chunked and whatever the secrets are |
| Redactor.ShiftFindsFirst | internal/cli/run_access.go:216-227 | the moved cut is the first start of an occurrence across the old cut, and stays when there is none |
| Redactor.ShiftAllClean | internal/cli/run_access.go:215-228 | after one pass over the secrets no occurrence of any of them crosses the cut, nested ones included |
| Redactor.CutMovesOnce | internal/cli/run_access.go:215-228 | among secrets that do not overlap the cut moves at most once, to the start of an occurrence across it |
| Redactor.PiecesPartition | internal/cli/run_access.go:211-237 | for any chunking, the pieces written and the pending text are the input, in order and without loss |
| Redactor.CleanCutsMakeCleanPieces | internal/cli/run_access.go:211-237 | if one pass over the secrets leaves none across the cut, no secret of the whole stream crosses the end of a written piece |
| Redactor.FeedIsClean | internal/cli/run_access.go:211-237 | for any chunking, no occurrence of a secret anywhere in the stream crosses the end of a written piece |
| RedactorLimits.CleanExact | internal/cli/run_access.go:211-237 | for any secrets, every chunking does so if and only if every text in one chunk does |
| RedactorLimits.ThirdSecretRepairs | internal/cli/run_access.go:214-228 | three secrets, two of them overlapping, that no chunking splits |
| Redactor.PendingBound | internal/cli/run_access.go:211-237 | pending text stays shorter than twice the longest secret |
| Redactor.SingleSecretExact | internal/cli/run_access.go:211-237 | one secret is never split, for any chunking, if and only if it does not overlap itself |
| Redactor.ReplacingStaysClean | internal/cli/run_access.go:248-254 | replacing one secret on both sides of a boundary creates no occurrence of another across it |
| Redactor.RedactSplits | internal/cli/run_access.go:248-254 | redacting two halves that no secret crosses is redacting the whole |
| Redactor.CleanCutsShowWhole | internal/cli/run_access.go:211-254 | whenever cuts are clean, all output after Flush is the redaction of the whole text |
| Redactor.StreamingIsWholeText | internal/cli/run_access.go:211-254 | all output after Flush is the redaction of the whole text, however it was chunked |
| RedactorLimits.OverlapShows | internal/cli/run_access.go:214-228 | two overlapping secrets of which the first one's start is shown |
| RedactorLimits.MarkFeedsSecret | internal/cli/run_access.go:248-254 | a secret that grows out of an inserted mark, so that the pieces and the whole text differ |
| RedactorLimits.PendingCanGrow | internal/cli/run_access.go:213-235 | three overlapping secrets of which three lengths are held back |
| Redactor.SingleSecretStreamingExact | internal/cli/run_access.go:211-254 | with one secret, chunking never shows in the output if and only if the secret does not overlap itself |
| Keys.StepKeepsInv | internal/keys/keys.go:39-86 | each system call of any process or ssh-keygen keeps the invariant, and changes nothing on disk once the pair is complete, unless an orphaned ssh-keygen writes after somebody else has taken the lock or touched the files |
| Keys.GeneratedPairIsForever | internal/keys/keys.go:27-86 | over every run, with processes dying at any step and orphans undisturbed: a complete pair is never removed or replaced; whoever returned success, early check included, did so with the pair that stays; at most one process is past the lock |
| Keys.OrphanOverwrites | internal/keys/keys.go:75-84 | for any two processes and an incomplete pair, a run in which the ssh-keygen of a killed one overwrites half of the pair the other has returned |
| Keys.PairIsForeverExact | internal/keys/keys.go:39-86 | from a given start every run keeps the pair if and only if the pair was complete or there is at most one process |
| Keys.NewPairMatches | internal/keys/keys.go:60-86 | with orphans undisturbed, a pair that was not complete at the start is completed with two halves of the same ssh-keygen run |
| Keys.NewPairMatchesExact | internal/keys/keys.go:60-86 | from an incomplete pair every run does so if and only if there is at most one process |
| Keys.FailingStatsFool | internal/keys/keys.go:20-35 | a process whose stats fail for another reason than absence returns success without a pair |
| Keys.UndisturbedSucceeds | internal/keys/keys.go:39-86 | from any point on its way a process whose calls succeed finishes, within a fixed number of steps, with the pair complete |
| Ports.FreePort | internal/config/config.go:453-484 | the smallest port of 2200 to 2299 that no listed record, broken ones included, holds and that can be bound; none only if there is none |
| Ports.HeldPorts | internal/config/config.go:454-471 | the ports that the records of one listing hold |
| Ports.SeenFreeExact | internal/config/config.go:453-471 | what the listings show as free, one that failed counting as empty, is free if and only if every port of an unlisted record is also held by a listed one |
| Ports.ValidateForwards | internal/core/forward.go:88-183 | accepted if and only if host ports are in 1024 to 65535 and guest ports in 1 to 65535, host ports are distinct and not the VM's ssh port, and no other listed VM has one of them as its ssh port or forwards it |
| Ports.AllowedExact | internal/core/forward.go:88-183 | the same for one listing, port by port |
| Ports.AcceptedStaysDisjoint | internal/core/forward.go:63-83 | where no two VMs bind the same host port, for ssh or as a forward, storing accepted forwards keeps it so |
| Ports.AcceptedPortStaysDisjoint | internal/core/update.go:208-213 | and so does an accepted ssh port |
| Ports.ClaimedPorts | internal/core/forward.go:147-176 | the claimed ports are those that some other VM holds or forwards |
| Ports.ValidateSshPort | internal/core/update.go:529-541 | the new ssh port is accepted if and only if it is a usable port, none of the VM's own forwards and not claimed by another listed VM |
| Ports.AllowedPortIsNew | internal/core/update.go:529-541 | an accepted ssh port is held by no other VM and clashes with none of the VM's own forwards |
| PortRuns.FreePortPicks | internal/config/config.go:453-484 | what FreePort answers, whatever the listings heard and when, is a step that Create and Clone can take |
| PortRuns.WriteExact | internal/config/config.go:289-303 | writing a record keeps ssh ports unique if and only if no other record has its port |
| PortRuns.ListStep | internal/config/config.go:341-407 | reading one file after the other, a listing under the lock ends having heard of every port that is not changed by an unlocked write it is in the way of |
| PortRuns.FillStep | internal/tomlx/tomlx.go:138-156 | the first Save of a VM, written whole, half or not at all, keeps ports unique |
| PortRuns.SwapStep | internal/core/update.go:463-483 | so does moving vm.toml away and the new one in |
| PortRuns.RestoreStep | internal/core/update.go:448-461 | and renaming back whatever the moved file holds by then |
| PortRuns.OwnStep | internal/core/core.go:140-195 | no call of any operation breaks the uniqueness of ssh ports or what its process relies on; an unlocked write does not if the port is free wherever its file is |
| PortRuns.OtherStep | internal/config/lock.go:53-85 | nor does any call break what another process relies on, if unlocked writes are clear |
| PortRuns.PortsStayUnique | internal/core/clone.go:32-121 | over every interleaving of the calls of Create, Clone, Update, Destroy, Forward, Apply and Start no two records, broken ones with a recoverable port included, share an ssh port, if every unlocked write is clear when it happens |
| PortLimits.InPlaceAtOnce | internal/tomlx/tomlx.go:138-156 | a save onto a record that still has its port is clear if the write follows the opening at once |
| PortLimits.GoesOn | internal/core/update.go:463-497 | a process that may yet write or put back a record does so, undisturbed |
| PortLimits.Takes | internal/config/config.go:453-484 | a listing that has passed a VM by ends with Create taking its port |
| PortLimits.ClearExact | internal/tomlx/tomlx.go:144-151 | with no Update in the middle of its listing, an unlocked write leaves every run safe whose later writes are clear if and only if it is clear itself |
| PortLimits.HiddenPortIsGivenAway | internal/core/forward.go:63-83 | for any VM with a port of FreePort's range, saved unlocked and touched by nobody, a run in which Create gives its port away between opening and writing |
| PortLimits.DestroyedPortComesBack | internal/core/forward.go:63-83 | for any such VM, a run in which it is destroyed before the save and comes back with a port since given away |
| PortLimits.AloneIsUnique | internal/core/forward.go:63-83 | one process alone keeps ports unique, whatever it does and wherever it fails |
| PortLimits.CreateRun | internal/core/core.go:140-195 | undisturbed, Create makes a VM with any port that nobody has, and changes nothing else |
| PortLimits.CloneRun | internal/core/clone.go:32-121 | so does Clone |
| PortLimits.UpdateRun | internal/core/update.go:208-213 | undisturbed, Update gives its VM an allowed port and changes nothing else |
| PortLimits.ForwardDone | internal/core/forward.go:63-83 | undisturbed, Forward stores allowed forwards and changes nothing else |
| PortLimits.DestroyRun | internal/core/vm.go:738-790 | undisturbed, Destroy removes the VM and nothing else |
| PortLimits.SaveExact | internal/core/forward.go:63-83 | from any state, at the start of a save or in the middle, in which no carried record clashes, every run keeps ports unique if and only if there is at most one process |
| PortRuns.ForwardsStayConsistent | internal/core/forward.go:63-83 | over every interleaving, Forward included, the forwards of each VM are pairwise distinct and differ from its ssh port |
| PortRuns.InitIsOk | internal/config/lock.go:53-85 | a consistent data root with no operation under way satisfies both invariants |
| TopoSort.Sorter.Visit | internal/recipes/deps.go:26-47 | the depth-first visit finishes the recipe and restores the stack, or returns a reachable cycle |
| TopoSort.CycleFrom | internal/recipes/deps.go:62-72 | the reported path is a cycle: each recipe depends on the next, and the last is the first |
| TopoSort.Sort | internal/recipes/deps.go:17-57 | succeeds if and only if no cycle is reachable; the order is duplicate-free, has every name and besides only dependencies of what it has, each dependency before its dependent; otherwise the path reported leads from a recipe over dependencies back to it |
| TopoSort.OrderIsRight | internal/recipes/deps.go:17-57 | what the order is, in terms of names and depends lists alone |
| TopoSort.PathRunsBackwards | internal/recipes/deps.go:17-57 | in such an order every dependency path leads to an earlier place |
| TopoSort.OrderedMeansAcyclic | internal/recipes/deps.go:17-57 | where such an order exists there is no reachable cycle |
| TopoSort.OrderIsComplete | internal/recipes/deps.go:49-57 | once every name is visited the finished recipes are the order asked for |
| Resolve.CheckDependencies | internal/core/deps.go:31-51 | accepts if and only if every name is a recipe, every dependency is listed and there is no cycle; says which name, dependency or cycle is to blame |
| Resolve.ResolveDependencies | internal/core/deps.go:65-116 | succeeds if and only if some list completes the names; the additions are then the fewest possible, new, free of duplicates, each asked for by the recipe named, and CheckDependencies accepts the whole; a failure names a missing name, or a dependency or cycle that the names lead to |
| Resolve.AdditionsAreRight | internal/core/deps.go:65-116 | each addition is new, fits the guest and is a dependency of the recipe it names; every dependency of the whole is in it |
| Resolve.TakesDep | internal/core/deps.go:89-105 | taking up one dependency keeps the worklist on track and adds nothing that some completion lacks |
| Resolve.Finishes | internal/core/deps.go:108-116 | an empty worklist is the least dependency-closed superset of the names |
| Resolve.CycleFails | internal/core/deps.go:108-116 | a cycle among what was collected is in every completion |
| Planner.PlanRecipes | internal/core/apply.go:510-583 | succeeds if and only if the recipes exist, are acyclic, can be hashed where needed, and each dependency of a due recipe is due or applied; one decision for each target, dependencies first: an always recipe runs, a manual one if and only if it is named, a once recipe if and only if it is not recorded or its hash differs, each with its reason; what runs has its dependencies applied or run before it; a refusal names the recipe, the unmet dependency or the cycle that is to blame |
| Planner.PlanIsRight | internal/core/apply.go:536-582 | the same of the decisions of any plan |
| Planner.WalkOrder | internal/core/apply.go:536-582 | the loop over the sorted targets reaches exactly that verdict |
| Planner.OrderIsTargets | internal/core/apply.go:523-536 | sorting the targets among themselves yields each target once, dependencies first |
| Planner.MetInOrder | internal/core/apply.go:568-579 | checking a dependency against what ran before is checking it against all that will run |
| Planner.DependenciesMet | internal/core/apply.go:569-577 | a dependency that was neither kept nor applied is found if there is one |
| Planner.KeptAreDue | internal/core/apply.go:483-495 | the recipes kept are the due targets |
| Planner.DueAgain | internal/core/apply.go:541-566 | after the run is recorded a recipe is due only if it is not a once recipe and was due before |
| Planner.RunsAgain | internal/core/apply.go:221-246 | after a successful run, planning again succeeds, runs no once recipe, and nothing that did not run before |
| Planner.Vm.ResolveTargets | internal/core/apply.go:126-140 | nothing named is everything; otherwise every name must be one of the VM's recipes |
| Planner.Vm.Record | internal/core/apply.go:216-246 | every recipe that ran gets its hashes, if and only if all can be computed |
| Planner.Vm.Apply | internal/core/apply.go:142-277 | starts from what cloud-init ran if nothing is recorded; succeeds if and only if the targets resolve and nothing is due, or all goes well and no health check fails; records exactly the due recipes when everything up to the saving goes well, a failing health check included, and nothing more otherwise |
| Planner.NewlyRecorded | internal/core/apply.go:216-246 | what is newly recorded is a target that ran, with its current hashes, and a manual one only if it was named: an apply naming nothing runs no manual recipe |
| Planner.CompletedIsUpToDate | internal/core/apply.go:142-277 | after a successful run every once target is recorded with its current hash, and always targets and named ones have run |
| Planner.NoOpIsUpToDate | internal/core/apply.go:187-195 | when nothing ran, nothing had to |
| AlreadyApplied.AlreadyAppliedExact | internal/core/apply.go:549-566 | a once recipe is left alone if and only if script, parameters and names of set secrets are what they were when it ran; the reason given tells whether the script changed |
| Shell.QuoteByBytes | internal/installer/paths.go:79-91 | quoting is byte by byte between two quotes; fish's two replacements do not interfere |
| Shell.QuoteReads | internal/installer/paths.go:79-91 | in the midst of a word the shell reads a quoted string as its bytes, all of them literal |
| Shell.ShellJoin | internal/core/exec.go:101-107 | the printed line reads back as the arguments |
| Shell.JoinedReadsBack | internal/guest/prelude.go:11-21 | reading a printed argument list gives the list, empty arguments, quotes, spaces, backslashes and newlines included |
| Shell.PrintingIsInjective | internal/guest/prelude.go:11-21 | two argument lists never print alike |
| RcLine.LargestQuotableChunk | internal/installer/paths.go:169-181 | the binary search returns the longest prefix whose quoted form fits the budget |
| RcLine.QuotedLength | internal/installer/paths.go:169-181 | each further byte makes the quoted form longer |
| RcLine.FullReads | internal/installer/paths.go:68-91 | the unbroken line means the directory, byte for byte, in both shells |
| RcLine.ChunkReads | internal/installer/paths.go:149-160 | a line that ends in a backslash continues the word on the next |
| RcLine.WrapRCLine | internal/installer/paths.go:119-161 | terminates; one line, unbroken, if and only if it fits or a quoted byte does not; otherwise every line is at most the width; the newline-joined lines read as the unbroken line |
| RcLine.WideEnough | internal/installer/paths.go:119-161 | from a width of 26 the line never stays too long |
| RcLine.PlainLine | internal/installer/paths.go:68-91 | the text of the line for a directory without quotes and backslashes |
| RateLimit.Limiter.Check | internal/mcpsrv/ratelimit.go:52-80 | an accepted call takes a token from both buckets, a refused one from neither |
| RateLimit.PayingCosts | internal/mcpsrv/ratelimit.go:69-80 | an accepted call costs each bucket it is charged to a token's worth of its funds, whatever the clock says |
| RateLimit.BucketPays | internal/mcpsrv/ratelimit.go:52-80 | from any state, the accepted calls of a window are covered by what the bucket holds and what flows in |
| RateLimit.WindowBound | internal/mcpsrv/ratelimit.go:52-80 | of the calls of any trace with a time in a window of length T at most ToolBurst + ToolRate*T of a tool and Burst + Rate*T in all are accepted, from any state |
| RateLimit.RefusalsLeaveNoTrace | internal/mcpsrv/ratelimit.go:52-67 | deleting the refused calls changes no decision and no bucket |
| RateLimit.BurstIsGranted | internal/mcpsrv/ratelimit.go:69-80 | a fresh limiter grants a burst as large as the smaller of the two |
| RateLimit.AllowsExact | internal/mcpsrv/ratelimit.go:52-80 | a call is accepted if and only if both its buckets have a token by then, given what they held and when |
| RateLimit.RetryTimeExact | internal/mcpsrv/ratelimit.go:74-78 | the time a refusal tells to wait is right: the bucket gives a token from then on, and at no earlier time |
| RateLimit.SpacedCallsPass | internal/mcpsrv/ratelimit.go:52-80 | after any calls to a fresh limiter, one that comes 1/ToolRate after the accepted calls of its tool and 1/Rate after all accepted calls is accepted |
| RateLimit.EmptyNameEscapes | internal/mcpsrv/ratelimit.go:52-67 | the per-tool bound fails for the empty tool name |
| EditDistance.EditDistance | internal/coreerr/coreerr.go:91-109 | the two-row table computes the recursive Levenshtein distance |
| EditDistance.NextRow | internal/coreerr/coreerr.go:97-107 | from the row of one prefix to that of the next |
| EditDistance.ZeroIffEqual | internal/coreerr/coreerr.go:91-109 | distance zero if and only if equal |
| EditDistance.Symmetric | internal/coreerr/coreerr.go:91-109 | the distance does not depend on the direction |
| EditDistance.Triangle | internal/coreerr/coreerr.go:91-109 | the triangle inequality |
| EditDistance.LevAtMostLonger | internal/coreerr/coreerr.go:91-109 | no more edits than the longer string has bytes |
| EditDistance.LengthGap | internal/coreerr/coreerr.go:91-109 | no fewer than the lengths differ by |
| EditDistance.NoScriptIsShorter | internal/coreerr/coreerr.go:91-109 | no sequence of single-byte insertions, deletions and replacements is shorter than the distance |
| EditDistance.SomeScriptIsThatShort | internal/coreerr/coreerr.go:91-109 | and one is exactly that long |
| EditDistance.Suggest | internal/coreerr/coreerr.go:77-89 | the first of the nearest candidates if any is near enough, a candidate that contains the name counting as one edit away |
| Render.RenderParams | internal/core/project.go:253-262 | the text depends on the table's entries, not on the order in which maps are walked |
| Render.RenderedExact | internal/core/project.go:253-262 | two tables whose names and values avoid the separators render alike if and only if they say the same |
| Render.SeparatorsNeeded | internal/core/project.go:253-262 | with a comma in a value two different tables can render alike |
| Render.JoinInjective | internal/core/project.go:173-173 | recipe lists without empty names and commas join alike only if they are equal |
| Reconcile.SetParam | internal/config/config.go:174-182 | sets the parameter and leaves every other one |
| Reconcile.UnsetParam | internal/config/config.go:185-200 | unsets the parameter and leaves every other one |
| Reconcile.EditParams | internal/core/update.go:321-331 | what setting, unsetting and dropping leave at every parameter |
| ReconcileLands.ParamsLand | internal/core/update.go:183-189 | the value of every parameter after an update: gone with its recipe or unset, set, or as it was |
| ReconcileLands.SecretsLand | internal/core/update.go:334-352 | the value of every secret: gone with its recipe, given, unset, or as it was |
| ReconcileLands.FieldsLand | internal/core/update.go:132-206 | every other field: what the patch has, or as it was; allow_exec goes with the access level |
| ReconcileLands.UpdateKeepsTyped | internal/core/update.go:267-319 | every update keeps stored parameters declared, accepted and no secrets, and stored secrets declared as such and not empty |
| ReconcileLands.OneEditExact | internal/core/update.go:267-319 | one edit is let in if and only if the recipe is the VM's, has the parameter, and it is of the right kind and value |
| ReconcileLands.EditsOneByOne | internal/core/update.go:267-319 | a patch is let in if and only if each of its edits is |
| ReconcileLands.NumbersExact | internal/core/update.go:134-146 | at least 256 MB and one cpu |
| Host.Host.Update | internal/core/update.go:118-238 | succeeds if and only if the edit is valid, what it needs can be read, and no call of the commit fails; then record, parameters and secrets are as patched; failure leaves each file as it was unless the rollback's own rename of it fails, and both if the commit never began |
| Host.StoredAfter | internal/core/update.go:427-496 | what secrets.toml holds after the swap is what the update was to store |
| Host.Host.Create | internal/core/core.go:140-195 | succeeds if and only if the declaration plans, its parameters and secrets are valid and every write and the provider succeed; the record is the declaration's; a failure leaves no VM behind |
| Host.CreatedIsSettled | internal/core/project.go:335-338 | a VM built from the declaration does not differ from it |
| Reconcile.UpdateKeepsWithin | internal/core/update.go:150-189 | every update keeps parameters and secrets within the VM's recipe list |
| Reconcile.Diff | internal/core/project.go:123-180 | refuses if and only if an immutable field differs; reports exactly the fields whose texts disagree |
| ReconcileLands.NoDriftExact | internal/core/project.go:161-179 | it reports nothing if and only if cpus, ram and access agree as far as declared, and recipes, mount points with their paths, and parameters agree |
| Reconcile.RemovedParams | internal/core/project.go:271-292 | the stored parameters of kept recipes that the declaration no longer states |
| Reconcile.FilterSecrets | internal/core/project.go:301-313 | the secrets of the declared recipes and no others |
| Reconcile.PatchOf | internal/core/project.go:385-411 | the loop over the drift builds the patch of the drifting fields, and always brings the secrets |
| Host.Host.Reconcile | internal/core/project.go:350-416 | a missing VM is created; for one that exists, succeeds if and only if the immutable fields agree and there is nothing to do or the update succeeds; failure leaves each file as it was unless the rollback's own rename of it fails |
| ReconcileLands.ReconcileLands | internal/core/project.go:385-415 | after a successful Reconcile cpus, ram and access are the declared ones or as they were, and the shares are the declared ones |
| ReconcileLands.DeclaredSecretsLand | internal/core/project.go:374-415 | every declared secret of a declared recipe is stored with its declared value |
| Host.ReadableExact | internal/config/secrets.go:31-33 | secrets are read only from a file that its owner alone may read or write |
| Host.NothingFails | internal/core/project.go:350-416 | with no call failing, Reconcile succeeds if and only if there is nothing to do or its patch is valid |
| Reconcile.ParameterSettles | internal/core/update.go:259-356 | a parameter ends as declared unless it is stored, undeclared, and out of reach of both unset and drop |
| Reconcile.ReconcileSettles | internal/core/project.go:350-416 | after a successful Reconcile Diff reports nothing if and only if no parameter was stuck; the recipe list is the declared one |
| Reconcile.SecretStays | internal/core/update.go:329-331 | a stored parameter that has become a secret makes a successful Reconcile leave drift |
| Reconcile.StrayStays | internal/core/project.go:277-280 | so does one of a recipe that neither list names |
| Reconcile.DroppedDriftStays | internal/core/update.go:183-184 | so does a declared parameter of a recipe being dropped |
| Reconcile.TidyClears | internal/core/project.go:350-416 | nothing is stuck where parameters belong to listed recipes and none stored is a secret |
| Reconcile.SavingTwice | internal/core/update.go:259-356 | laying the same secrets over those already saved with them saves the same again |
| Reconcile.ReconcileReachesSettled | internal/core/project.go:350-416 | after one successful Reconcile there is no drift and the declared secrets are in place, if and only if no parameter was stuck; the next Reconcile is then valid |
| Reconcile.SettledIsFixed | internal/core/project.go:374-413 | on a settled VM a Reconcile changes neither record nor secrets |
| Reconcile.SecondChangesNothing | internal/core/project.go:350-416 | a second Reconcile is valid and changes neither record nor secrets |
| Commit.VmDir.CommitUpdate | internal/core/update.go:398-497 | with any calls failing: success, under an exact condition on the failures, replaces both files and keeps their modes; failure leaves each file as it was unless the rollback's own rename of it fails, and both if vm.toml was not yet moved |
| Commit.VmDir.Rollback | internal/core/update.go:448-461 | what was installed goes and what was moved away comes back |
| Sorting.AscendingUnique | internal/recipes/params.go:168-177 | there is one way to put the same strings in order |
| Sorting.SortIsCanonical | internal/recipes/params.go:168-177 | sorting forgets the order of collection and nothing else |
| RecipeHash.HashInput | internal/recipes/params.go:158-182 | the digested bytes are the encoding of the body, the parameters in name order and the secret names in order, however the map is walked |
| RecipeHash.PreimageText | internal/recipes/params.go:167-180 | the digested bytes for two parameters and two secrets, as they are written |
| RecipeHash.EncodeUnique | internal/recipes/params.go:165-180 | the encoded segments can be told apart when nothing holds a NUL |
| RecipeHash.PreimageExact | internal/recipes/params.go:158-182 | two recipes digest the same bytes if and only if body, parameters and secret names are the same |
| RecipeHash.ProvisosNeeded | internal/recipes/params.go:165-180 | with an equals sign in a parameter name, or a NUL in the body, they need not be |
| Namespace.FormsDiffer | internal/cloudinit/scripts.go:117-138 | a plain name is never a hexadecimal one |
| Namespace.SecretNameInjective | internal/cloudinit/scripts.go:117-138 | different secrets have different names when parameter names start with a small letter |
| Namespace.SecretNameIsVariable | internal/cloudinit/scripts.go:117-122 | every name is one that a shell takes for a variable |
| Namespace.SecretNameText | internal/cloudinit/scripts.go:117-122 | the two forms, as they are written |
| Namespace.LetterNeeded | internal/cloudinit/scripts.go:117-138 | without that two secrets can share a name |
| Merge.MergeMaps | internal/cloudinit/merge.go:45-67 | the recursive loop computes the structural merge |
| Merge.MergeDocs | internal/cloudinit/merge.go:25-43 | documents are folded from the left, empty ones skipped |
| Merge.EmptySkipped | internal/cloudinit/merge.go:33-35 | an empty document changes nothing, wherever it stands |
| Merge.MergedKey | internal/cloudinit/merge.go:45-67 | what two documents make of a key |
| Merge.EmptyIsIdentity | internal/cloudinit/merge.go:45-67 | the empty map is neutral on both sides |
| Merge.AbsorbedExact | internal/cloudinit/merge.go:45-67 | merging leaves the later value as it is if and only if the earlier one adds nothing to it |
| Merge.AssociativeExact | internal/cloudinit/merge.go:45-67 | merging three values is associative if and only if no value of another kind hides what the first could add |
| Merge.MixedKindsDiffer | internal/cloudinit/merge.go:52-64 | a scalar between two lists makes the two groupings differ |
| Merge.AgreeingIsAssociative | internal/cloudinit/merge.go:45-67 | documents that agree in kind at every depth merge associatively |
| Merge.LookupCombined | internal/cloudinit/merge.go:45-67 | at any path the merge holds the merge of what is there |
| Merge.MergedAt | internal/cloudinit/merge.go:25-67 | at any path the folded result has a value if and only if some document does; a list is the documents' lists in order; a scalar is the last one |

## Left out

- qemu, QMP, ssh, scp, git, downloads, ISO building and GCE: foreign processes; a bind check, a hash, an image or a running state is a parameter.
- TOML: a record is a value, and Save and Load write and read it.
- Command line, installer screens, MCP wire types, logging and host checks: presentation.
- Redactor.SingleSecretStreamingExact: a secret that itself starts with the text `<redacted>` is outside the equivalence; for it StreamingIsWholeText gives the one direction.
- Redactor.StreamingIsWholeText: for several secrets, the condition on overlaps is sufficient, not exact (ThirdSecretRepairs), and so is the one on marks; CleanExact is exact, about one pass over one text.
- Keys.GeneratedPairIsForever: ssh-keygen is taken to refuse when it finds either half, once, before it writes; a process misled by a stat that fails for another reason than absence is not held to its success.
- PortRuns.PortsStayUnique: neither listing of the data root fails as a whole; the name rules and disk work of Create and Clone are a step that may fail; Start's save, which holds the lock, is taken as one that does not; one write call is one step, though it may stop half way.
- PortLimits.ClearExact: while an Update is listing, a clear write is safe, but an unclear one may be, too, because that Update may yet be refused for its VM's forwards.
- Planner.RunsAgain: scripts and parameters are unchanged between the plans, and names given explicitly are at most those of the first.
- Planner.Vm.Apply: outputs and health verdicts are not kept, and what cloud-init's markers show is given.
- AlreadyApplied.AlreadyAppliedExact: the digest is taken to be free of collisions.
- RcLine.WrapRCLine: which shell is meant, by the base name of its path, is given.
- RateLimit.WindowBound: tokens and times are reals, without rounding.
- Host.Host.Update: the edits that no reconcile makes (display, installed, share, disk size) are not modelled, and the ssh port is modelled in PortRuns; which of several errors is reported first is not either.
- Host.Host.Reconcile: image, provider and disk are one field that must not change; restart flags and the from and to texts of a drift are not kept.
- Host.Host.Create: a first write of vm.toml that fails is taken to leave none, and removing the directory of a failed attempt to succeed.
- Commit.VmDir.CommitUpdate: a crash between two renames is not modelled, only calls that fail.
- Merge.MergeMaps: Go updates the first map in place and may share the second one's values; the model works on values and does not capture the sharing. YAML parsing is not modelled.
