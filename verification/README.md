# nid in Dafny

`nid` sits between a coding agent and the commands it runs: it compresses their output with small
per-command profiles, learns those profiles from samples, and keeps the raw output in a local store. This
project models the parts of it that carry state or are easy to get subtly wrong, and proves what they keep.
`dafny verify dfyconfig.toml` checks all of it.

Three groups of modules:

- **The rule interpreter and the checks that judge it.** `Rules` gives each rule a declarative meaning and
  `Interpreter` proves the budgeted loops against it, aborts included. `RuleLaws` proves what the meanings
  amount to (maximal runs, fences, sections, truncation). `Structural` proves that the interpreter's output
  passes the Tier-2 subset check and for which placeholder templates, `Invariants` models the Tier-1 checks,
  and `Synthesis` says what a synthesized profile does to its own training samples and when its self-test
  passes. `Json` holds the three path walkers.
- **The learned-profile life cycle.** `ProfileRepo` (the status table), `BlobStore` and `BlobRefs`
  (reference-counted blobs used by processes that may die between any two calls), and `SynthLock` (automatic
  synthesis by any number of processes behind a lock file) are step systems with inductive invariants.
- **Arithmetic, graphs, streams, files.** `CivilDate` and `GainDaily` (dates and the daily rollup), `Signing`
  (the rotation-chain walk), `Fingerprint` (argument canonicalization), `Layer1` (the head/tail ring buffer),
  `Bypass` (the sliding window and the event log), and `HookMerge`, `Installer`, `InstallerLaws` (merging
  hooks into agent configurations and undoing it).

What is a parameter: a pattern is any predicate on lines; the wall clock is any function from step counts to
milliseconds; JSON parsing and printing, hashing, signing and the two character-class token patterns are
uninterpreted, with only the laws stated where they are needed (a parser undoing its printer, a hash without
collisions, a signature that verifies). Text is a sequence of characters with its UTF-8 width.

## Where the code differs from what is said of it

The model follows the code. Each of these is proved, or is visible in a contract.

- A run that exceeds its budget is documented to return a partial result; it returns no lines, because the
  lines have been moved into the rule that failed (crates/nid-dsl/src/interpreter.rs:57-66 and 88-97;
  `Interpreter.ApplyRulesWithBudget`).
- The branch that removes a spurious last line never fires (`Text.NoSpuriousLastLine`).
- `collapse_between` can return more lines than it got (`RuleLaws.FencesGrowIff`); `strip_ansi` is not
  idempotent on every text (`RuleLaws.StripTwiceIff`).
- `tail_before` keeps the match and everything after it (`RuleLaws.TailBeforeKeeps`).
- The placeholder that docs/dsl-reference.md:74 shows for `collapse_between` is not one the Tier-2 check
  recognises: the documented rule fails it (`Structural.TemplateSafeIff`, `Structural.DocumentedRuleFails`).
- `json_drop` on a path that ends in an index does nothing to the array (`Json.DropIndexIsNoop`), and the
  reading and the writing walker disagree on numeric keys (`Json.WalkersAgreeIff`).
- A date's year passes through a 32-bit cast, so days a multiple of 2^32 years apart share a rollup row
  (`GainDaily.KeysMergeIff`).
- Layer 1 announces an elision as soon as the tail buffer is used, whether or not a line was lost
  (`Layer1.MarkerWithoutElision`).
- With a window of zero the bypass tracker forgets nothing (`Bypass.TrackerHoldsWindow`).
- Stale-lock removal is a check followed by a removal, and lets two processes into the critical section
  exactly when the creator of the removed lock is still at work (`SynthLock.CleanupBreaksIff`); even then at
  most one row stays active (`SynthLock.AlwaysOneActive`).
- An install that stops half-way leaves rewritten configurations and no backup
  (`InstallerLaws.FailedApplyKeepsNoBackup`), and a second install overwrites the backup with the hooked
  files (`InstallerLaws.SecondApplyForgetsIff`).

## Model

| member | source | states |
|---|---|---|
| `Text.NoSpuriousLastLine` | crates/nid-dsl/src/interpreter.rs:73-84 | splitting into lines yields an empty last line only if the input ends in a newline, so the pop is dead code |
| `Text.PrintedInputLines` | crates/nid-dsl/src/interpreter.rs:47-78 | splitting a text and printing the lines gives the text back, with a final newline if it had none |
| `Text.LinesVsInputLines` | crates/nid-dsl/src/interpreter.rs:73-78 | `str::lines` gives the lines of the interpreter's splitter, less one trailing carriage return each, except of a last line that no newline ends |
| `Text.LinesOfUnlines` | crates/nid-dsl/src/interpreter.rs:47-55 | printing newline-free lines and splitting again returns them, up to one trailing carriage return each |
| `Text.ByteLenIsUtf8` | crates/nid-dsl/src/interpreter.rs:113-114 | the byte length of a text is the length of its UTF-8 encoding |
| `Json.JsonWalk` | crates/nid-dsl/src/interpreter.rs:500-534 | the character loop with its two inner loops returns what the recursive reading of the path text returns, for every path text |
| `Json.ParseUsizeIff` | crates/nid-dsl/src/interpreter.rs:526-528 | an index text parses, and to `n`, if and only if it is an optional plus sign, zeros and the decimal of `n`, below 2^64 |
| `Json.JsonWalkMut` | crates/nid-dsl/src/interpreter.rs:563-592 | the split-then-step loop follows the parts of the path text, for every path text |
| `Json.WalkersAgree` | crates/nid-dsl/src/interpreter.rs:500-592 | on rendered paths of non-empty, non-numeric, bracket-free keys and indices, both walkers reach exactly the value the segments denote, or both fail |
| `Json.WalkersAgreeIff` | crates/nid-dsl/src/interpreter.rs:500-592 | for every path of indices and non-empty keys free of dots and brackets: the walkers agree on every document if and only if no key parses as an index and every index does |
| `Json.NumericKeysDisagree` | crates/nid-dsl/src/interpreter.rs:563-592 | on any other such path, a document on which one walker finds a value and the other does not |
| `Json.DropTheorem` | crates/nid-dsl/src/interpreter.rs:536-561 | after dropping a path that ends in a key, that path and all its extensions denote nothing, and every path that diverges from it denotes what it did |
| `Json.DropIndexIsNoop` | crates/nid-dsl/src/interpreter.rs:536-561 | dropping a path that ends in indices leaves the document unchanged if and only if the enclosing object has no member literally named like the key with its brackets |
| `Budget.BudgetRunner.Tick` | crates/nid-dsl/src/budget.rs:63-78 | counts one step and fails exactly past the step limit, or when the clock is over its limit on a multiple of 1024 steps |
| `Budget.BudgetRunner.ObserveBytes` | crates/nid-dsl/src/budget.rs:80-89 | keeps the largest total seen and fails exactly when it is over the limit |
| `Interpreter.KeepLoop` | crates/nid-dsl/src/interpreter.rs:118-127 | succeeds exactly when one budget step per line passes, and then returns the placeholders and matching lines in order |
| `Interpreter.DropLoop` | crates/nid-dsl/src/interpreter.rs:128-137 | the same for the complement: placeholders and lines that do not match |
| `Interpreter.CollapseRepeatedLoop` | crates/nid-dsl/src/interpreter.rs:277-316 | the run-start loop with its flush equals the collapse of the division into runs, at one step per line; `RuleLaws.MarkerPrints` says what its markers print |
| `Interpreter.CollapseBetweenLoop` | crates/nid-dsl/src/interpreter.rs:318-356 | the inside-flag loop with its elided counter equals the collapse of the division into fences, at one step per line; `RuleLaws.MarkerPrints` says what its markers print |
| `Interpreter.HeadAfterLoop` | crates/nid-dsl/src/interpreter.rs:358-383 | keeps everything up to `n` lines after the first match, and charges only the lines it visits |
| `Interpreter.TailBeforeLoop` | crates/nid-dsl/src/interpreter.rs:385-408 | keeps everything from `n` lines before the first match, and charges the search and the copy |
| `Interpreter.DedupLoop` | crates/nid-dsl/src/interpreter.rs:410-426 | keeps each line whose text differs from the line just before it in the input |
| `Interpreter.StripAnsiLoop` | crates/nid-dsl/src/interpreter.rs:428-445 | strips every verbatim line and leaves placeholders alone |
| `Interpreter.StateMachineLoop` | crates/nid-dsl/src/interpreter.rs:447-497 | the loop with a mutable active section equals a stateless filter: a verbatim line's fate depends only on the lowest-index state entered at the latest entering line at or before it |
| `Interpreter.TruncateLoop` | crates/nid-dsl/src/interpreter.rs:192-207 | returns the longest fitting prefix, followed by the marker when something was cut |
| `Interpreter.JsonPathKeepLoop` | crates/nid-dsl/src/interpreter.rs:209-233 | collects the values of the paths that resolve into one object and prints it, and leaves unparsable text alone |
| `Interpreter.JsonPathDropLoop` | crates/nid-dsl/src/interpreter.rs:235-253 | drops the paths in order from the parsed document and prints it, and leaves unparsable text alone |
| `Interpreter.RunRule` | crates/nid-dsl/src/interpreter.rs:117-181 | each rule kind ends in its own loop, which succeeds exactly when each of the rule's steps passes and returns the rule's meaning |
| `Interpreter.ApplyOne` | crates/nid-dsl/src/interpreter.rs:108-184 | one rule succeeds exactly when its input fits in memory, each of its steps passes, and its output fits; it then returns the rule's meaning |
| `Interpreter.ApplyRulesWithBudget` | crates/nid-dsl/src/interpreter.rs:67-106 | for every input, rule list, budget and clock: the run aborts exactly when some check of the whole run fails, an aborted run has no lines, and any other run returns the fold of the rules' meanings with its byte counts |
| `RuleLaws.ElidesExactlyLongRuns` | crates/nid-dsl/src/interpreter.rs:277-316 | a range of lines is replaced by one marker if and only if it is a maximal run of matching verbatim lines of length at least `min` |
| `RuleLaws.ElidesExactlyInside` | crates/nid-dsl/src/interpreter.rs:318-356 | a line is elided if and only if it lies strictly inside a fence |
| `RuleLaws.RunPiecesTile` | crates/nid-dsl/src/interpreter.rs:284-315 | kept lines and elided runs, put back together, are the input in order |
| `RuleLaws.FencePiecesTile` | crates/nid-dsl/src/interpreter.rs:327-355 | kept lines and fence bodies, put back together, are the input in order |
| `RuleLaws.CollapseConserves` | crates/nid-dsl/src/interpreter.rs:277-356 | in both rules, kept lines plus elided lines equal the number of input lines |
| `RuleLaws.SubstituteFirst` | crates/nid-dsl/src/interpreter.rs:291-293 | the first `{count}` of a template becomes the decimal numeral of the count; what is left of it stays |
| `RuleLaws.SubstituteNothing` | crates/nid-dsl/src/interpreter.rs:291-293 | a text without `{count}` is unchanged |
| `RuleLaws.MarkerPrints` | crates/nid-dsl/src/interpreter.rs:288-293 | a marker of a template with one `{count}` prints the number of lines it stands for, in decimal, and reads back as that number |
| `RuleLaws.OutputConserves` | crates/nid-dsl/src/interpreter.rs:277-356 | for every such template and every input, the numbers printed by the inserted markers, read back from the output, plus its other lines, equal the number of input lines, in both rules |
| `RuleLaws.OutputConservesVerbatim` | crates/nid-dsl/src/interpreter.rs:277-356 | on an input without markers that can be read off the output alone |
| `RuleLaws.FencesGrowIff` | crates/nid-dsl/src/interpreter.rs:318-356 | output lines plus elided lines equal input lines plus markers, so the fence rule returns more lines than it got if and only if the fences that print a marker outnumber the lines inside them |
| `RuleLaws.FencesCanGrow` | crates/nid-dsl/src/interpreter.rs:340-345 | that does happen: two adjacent fences gain a zero-count marker, whatever the template |
| `RuleLaws.CollapseRunsIdempotent` | crates/nid-dsl/src/interpreter.rs:284-315 | collapsing runs twice is collapsing once, for every minimum length |
| `RuleLaws.DedupLaws` | crates/nid-dsl/src/interpreter.rs:410-426 | dedup leaves no equal neighbours, keeps exactly the set of texts, and is idempotent on tagged lines |
| `RuleLaws.TruncateLaws` | crates/nid-dsl/src/interpreter.rs:192-207 | the kept prefix fits and no longer one does, a cut is announced with the limit in decimal, the total is at most the limit plus one marker line, and truncation is idempotent |
| `RuleLaws.SectionsCompose` | crates/nid-dsl/src/interpreter.rs:465-496 | at a line that enters a section the text can be cut: the parts are filtered independently |
| `RuleLaws.SectionsKeep` | crates/nid-dsl/src/interpreter.rs:465-496 | lines before any entry are all kept |
| `RuleLaws.SectionDecides` | crates/nid-dsl/src/interpreter.rs:465-496 | in a section, entered by its first matching state, a line that a drop pattern matches goes, and any other stays if there are no keep patterns or one of them matches |
| `RuleLaws.RecordKept` | crates/nid-dsl/src/interpreter.rs:255-271 | a line is kept if and only if it is a marker or an object whose member of that name is a text in the list |
| `RuleLaws.KeepsPaths` | crates/nid-dsl/src/interpreter.rs:209-233 | the output is the printed object that holds, under its own text, each path that leads somewhere, and nothing else |
| `RuleLaws.HeadAfterKeeps` | crates/nid-dsl/src/interpreter.rs:358-383 | the result is a prefix, and a line is in it if and only if it is not more than `n` lines after any match |
| `RuleLaws.TailBeforeKeeps` | crates/nid-dsl/src/interpreter.rs:385-408 | the result is a suffix, and a line is in it if and only if a match stands at or before `n` lines further on, or nothing matches |
| `RuleLaws.EscapeLengthIff` | crates/nid-dsl/src/interpreter.rs:432-436 | an escape sequence is ESC, `[`, any digits, semicolons and question marks, and one letter, and its whole length is found |
| `RuleLaws.StripLaws` | crates/nid-dsl/src/interpreter.rs:428-445 | stripping only deletes, and changes nothing if and only if no position starts an escape sequence |
| `RuleLaws.StripTwiceIff` | crates/nid-dsl/src/interpreter.rs:432-443 | stripping twice equals stripping once if and only if no ESC that starts no sequence starts one after what follows it is stripped |
| `RuleLaws.StripTwiceWhole` | crates/nid-dsl/src/interpreter.rs:432-443 | in particular stripping is idempotent on every text in which each ESC starts a sequence |
| `RuleLaws.StripTwiceDiffers` | crates/nid-dsl/src/interpreter.rs:432-443 | the condition can fail: a text on which a second pass deletes more |
| `RuleLaws.RunKeepsSubseq` | crates/nid-dsl/src/interpreter.rs:108-497 | over whole rule lists without JSON rules, on lines that are escape-free if any rule strips escapes, the verbatim output is an order-preserving subsequence of the verbatim input |
| `Structural.StructuralSubsetCheck` | crates/nid-fidelity/src/structural.rs:20-41 | passes exactly when every printed line, trimmed at its end, is a recognised placeholder, blank, or a raw line, and otherwise lists the invented lines in order |
| `Structural.PlaceholderIff` | crates/nid-fidelity/src/structural.rs:43-49 | a line is recognised if and only if, past leading white space, it begins in one of the four ways |
| `Structural.InterpreterPassesCheck` | crates/nid-fidelity/src/structural.rs:20-49 | for every rule list without JSON rules whose templates are safe, and every input that is escape-free or meets no `strip_ansi`, the printed output passes the check and its verbatim lines are a subsequence of the input lines |
| `Structural.TemplateSafeIff` | crates/nid-fidelity/src/structural.rs:43-49 | for every template, of one line or several: each of its lines is recognised or blank after trimming if and only if every output of `collapse_repeated` passes the check, and if and only if every output of `collapse_between` does |
| `Structural.BarePrefixIsUnsafe` | crates/nid-fidelity/src/structural.rs:43-49 | the elision prefix alone is not safe: trimming removes its last space |
| `Structural.DocumentedTemplateIsUnsafe` | docs/dsl-reference.md:69-75 | the documented example placeholder is not safe |
| `Structural.DocumentedRuleFails` | docs/dsl-reference.md:69-75 | the input on which the documented rule fails the check: its two fences, one right after the other |
| `Invariants.JsonExists` | crates/nid-dsl/src/invariants.rs:109-122 | true exactly when the text parses and its dotted keys lead somewhere |
| `Invariants.ExistsAgrees` | crates/nid-dsl/src/invariants.rs:109-122 | on a path of plain keys the check and `json_walk` reach the same value, the one the path denotes |
| `Invariants.RunOne` | crates/nid-dsl/src/invariants.rs:31-107 | an error exactly when the check's pattern does not compile; otherwise each kind of check passes exactly when its statement about raw and compressed lines holds, the exit-line check included |
| `Invariants.CheckInvariants` | crates/nid-dsl/src/invariants.rs:19-29 | one result per invariant, in order, each passing exactly when its statement holds; or the name of the first invariant whose pattern does not compile |
| `Synthesis.ConstantLinesAcross` | crates/nid-dsl/src/diff.rs:116-140 | returns exactly the non-blank lines found in every sample, each before the next: a proper prefix first, else the smaller character at the first difference |
| `LineOrder.BytesOrder` | crates/nid-dsl/src/diff.rs:138-138 | that order of lines is the order of their UTF-8 bytes |
| `Synthesis.AnchorsUnique` | crates/nid-dsl/src/diff.rs:116-140 | that list is unique |
| `Synthesis.Synthesize` | crates/nid-dsl/src/diff.rs:47-114 | builds the rule list (strip, keep the first 20 common lines when there are any and the pattern compiles, drop blanks, dedup, cap at 64 KiB) and the two invariants; which 20 is `Synthesis.LeftOutIff` |
| `Synthesis.LeftOutIff` | crates/nid-dsl/src/diff.rs:58-64 | a common line is left out if and only if twenty common lines come before it |
| `Synthesis.SynthesizedMeaning` | crates/nid-dsl/src/diff.rs:47-114 | on every escape-free, CR-free text the profile outputs its wanted lines in order, adjacent repeats merged, up to the cap; wanted are the first 20 common lines, or all non-blank lines |
| `Synthesis.DigestLines` | crates/nid-dsl/src/diff.rs:47-114 | when that fits in 64 KiB nothing is cut, and printing and splitting the output gives exactly those lines |
| `Synthesis.TestOne` | crates/nid-cli/src/cmd/run.rs:760-790 | one sample passes exactly when the budgeted run completes, every pattern compiles and every invariant holds of its printed output |
| `Synthesis.SelfTest` | crates/nid-cli/src/cmd/run.rs:760-790 | the loop over samples succeeds exactly when every sample passes |
| `Synthesis.RunFitsIff` | crates/nid-dsl/src/diff.rs:47-114 | a synthesized profile stays within budget on its sample if and only if the sample fits in memory and two passes over its lines plus one or two over the wanted ones stay within the step limit without a late clock reading on a multiple of 1024 |
| `Synthesis.SelfTestPassesIff` | crates/nid-cli/src/cmd/run.rs:760-790 | with or without common lines, the self-test passes if and only if every sample is affordable in that sense, each of its error lines is wanted, and a wanted exit line is there if it has an exit line |
| `Synthesis.CoveredByAnchorsIff` | crates/nid-dsl/src/diff.rs:58-64 | with common lines in use that means: every error line of every sample is among the first 20 common lines, and an exit line is among them if any sample has one |
| `ProfileRepo.Repo.InsertPending` | crates/nid-storage/src/profile_repo.rs:61-86 | adds one row, pending, with the caller's fingerprint, version and blob, no rubric, and the identifier after the greatest one in use (1 in an empty table), or nothing when fingerprint and version are taken |
| `ProfileRepo.Repo.Promote` | crates/nid-storage/src/profile_repo.rs:88-105 | supersedes the active rows of the fingerprint and activates the row, or changes nothing when there is no such row |
| `ProfileRepo.Repo.ActiveFor` | crates/nid-storage/src/profile_repo.rs:117-135 | returns a newest active row of the fingerprint, if any |
| `ProfileRepo.Repo.Rollback` | crates/nid-storage/src/profile_repo.rs:184-215 | activates a newest superseded row and supersedes the active ones, or changes nothing when there is none |
| `ProfileRepo.Repo.Purge` | crates/nid-storage/src/profile_repo.rs:217-234 | deletes the row and returns the blobs it named, or changes nothing when another table refers to the row |
| `ProfileRepo.RunsKeepOneActive` | crates/nid-storage/src/profile_repo.rs:61-232 | over every run of insert, promote, quarantine, rollback and purge, identifiers are unique and each fingerprint has at most one active row |
| `ProfileRepo.RunsKeepVersions` | crates/nid-storage/src/profile_repo.rs:61-232 | over every run no two rows share fingerprint and version |
| `ProfileRepo.SetStatusKeepsOneActiveIff` | crates/nid-storage/src/profile_repo.rs:107-115 | the raw status setter keeps that if and only if it does not activate a row beside another active one |
| `ProfileRepo.RollbackRevivesSuperseded` | crates/nid-storage/src/profile_repo.rs:184-215 | a rollback activates only a superseded row, and never touches quarantined or pending rows or other fingerprints |
| `ProfileRepo.TwoRollbacksIff` | crates/nid-storage/src/profile_repo.rs:184-215 | with distinct times, two rollbacks restore every status if and only if the active row is newer than every superseded row but the newest |
| `ProfileRepo.LiveRowsWerePromoted` | crates/nid-storage/src/profile_repo.rs:61-232 | in every run, a row is active or superseded if and only if some step promoted it and it has been active or superseded ever since |
| `ProfileRepo.NeverPromotedNeverActive` | crates/nid-storage/src/profile_repo.rs:61-215 | so a row that no step promoted is neither, whatever is rolled back |
| `ProfileRepo.RowsWereInserted` | crates/nid-storage/src/profile_repo.rs:61-232 | in every run, each row has the fields of one insertion, its status apart, under an identifier that was free then |
| `ProfileRepo.PurgeTakes` | crates/nid-storage/src/profile_repo.rs:217-234 | a purge deletes the row with that identifier, unless another table refers to it, and no other row |
| `BlobStore.Blobs.Put` | crates/nid-storage/src/blob.rs:62-107 | counts one more reference of a known hash, else stores the bytes with a count of one |
| `BlobStore.Blobs.Get` | crates/nid-storage/src/blob.rs:109-123 | returns the stored bytes, or says why not: absent, over the read cap, or not matching their hash |
| `BlobStore.Blobs.Release` | crates/nid-storage/src/blob.rs:125-155 | counts one reference less, and at zero removes row and file |
| `BlobStore.Blobs.GcOrphans` | crates/nid-storage/src/blob.rs:157-179 | removes exactly the rows without references, with their files, and adds up the recorded sizes of the files removed |
| `BlobRefs.RunsKeepInv` | crates/nid-cli/src/cmd/run.rs:200-223 | over every interleaving of puts, row writes and overwrites, purges, releases and collections by processes that may die at any point, each count equals the rows naming the hash plus the references in flight or lost |
| `BlobRefs.GcFindsNothing` | crates/nid-storage/src/blob.rs:157-179 | in such runs the collector removes nothing: a lost reference is never reclaimed |
| `BlobRefs.NamedBlobsReadBack` | crates/nid-cli/src/cmd/run.rs:646-660 | the count of a hash is at least the number of rows naming it, equal when no reference to it is in flight or lost, so every named blob within the read cap reads back the bytes put |
| `BlobRefs.PurgeTakes` | crates/nid-storage/src/session_repo.rs:243-263 | a purge removes exactly the sessions started before the cutoff, or the rows of the profile |
| `BlobRefs.DeadKeepClaims` | crates/nid-cli/src/cmd/run.rs:200-223 | a process that dies takes no further step, and nobody gives back the references it held |
| `BlobRefs.CrashLeaks` | crates/nid-cli/src/cmd/run.rs:200-223 | so in every later state those blobs are still counted: a crash leaks them for good |
| `SynthLock.AtMostOneInSection` | crates/nid-cli/src/cmd/run.rs:671-709 | any number of processes, any interleaving, crashes and all other commands included, and clean-ups of locks whose creator is gone: at most one process is between acquiring and releasing |
| `SynthLock.CleanupBreaksIff` | crates/nid-cli/src/cmd/run.rs:682-702 | from any state with exclusion, a stale clean-up followed by taking the lock puts two processes into the section if and only if the creator of the removed lock was still in its section |
| `SynthLock.StaleCleanupBreaksExclusion` | crates/nid-cli/src/cmd/run.rs:682-692 | such a state is reachable: a whole run in which two processes find the same stale lock and both end up in the section |
| `SynthLock.RunsKeepInv` | crates/nid-cli/src/cmd/run.rs:721-807 | the inductive invariant: exclusion, and room for the promotion of every process past its re-check, counted against the steps that took an active profile or a row away |
| `SynthLock.PromotionsBounded` | crates/nid-cli/src/cmd/run.rs:671-807 | with quarantines and purges allowed, promotions are at most one more than the steps that took this fingerprint's active profile away or deleted one of its rows, and each promoted profile passed validation, budget and invariants on every sample its process loaded |
| `SynthLock.AtMostOnePromotion` | crates/nid-cli/src/cmd/run.rs:671-807 | when no other command does that, clean-ups of abandoned locks allowed: at most one process in the section, at most one promotion, and it was vetted |
| `SynthLock.AlwaysOneActive` | crates/nid-cli/src/cmd/run.rs:671-807 | in every run whatsoever, stale clean-ups, quarantines, rollbacks and purges included, each fingerprint has at most one active row |
| `SynthLock.LiveRowsWerePromoted` | crates/nid-cli/src/cmd/run.rs:671-807 | in every run whatsoever, a row is active or superseded if and only if it was so all along, or a process or another command promoted it and it has been so ever since |
| `SynthLock.PromotedOnEnough` | crates/nid-synthesis/src/lockin.rs:16-43 | in every run whatsoever, each promotion was made from the required number of samples, or from at least three, all the same, where the fast path is on |
| `CivilDate.CivilIsGregorian` | crates/nid-storage/src/session_repo.rs:268-280 | day 0 is 1970-01-01 and day n+1 is the Gregorian next day of day n, for every integer n |
| `CivilDate.CivilKeepsOrder` | crates/nid-storage/src/session_repo.rs:268-280 | later days have later dates, so no two days share a date |
| `CivilDate.DayNumberOfCivil` | crates/nid-storage/src/session_repo.rs:268-280 | the day number of the date of a day is that day |
| `CivilDate.CivilOfDayNumber` | crates/nid-storage/src/session_repo.rs:268-280 | every valid Gregorian date is the date of its day number |
| `CivilDate.CastIsExactIff` | crates/nid-storage/src/session_repo.rs:279-279 | the 32-bit cast loses nothing if and only if the year fits |
| `CivilDate.CastAgreeIff` | crates/nid-storage/src/session_repo.rs:279-279 | two days get the same date if and only if month and day agree and the years differ by a multiple of 2^32 |
| `CivilDate.CastRepeats` | crates/nid-storage/src/session_repo.rs:279-279 | that does happen: day 1568704592610, 1 January 4294969266, gets the date of day 0 |
| `CivilDate.DateKeyInjective` | crates/nid-storage/src/session_repo.rs:192-193 | distinct dates have distinct keys, negative years included |
| `CivilDate.DateKeyForm` | crates/nid-storage/src/session_repo.rs:192-193 | for the years 0 to 9999 a key is four, two and two digits with dashes between, which read back as year, month and day |
| `GainDaily.Gain.Bump` | crates/nid-storage/src/session_repo.rs:182-208 | for every day: inserts or adds to the row of the day's key, and changes no other row |
| `GainDaily.KeysMergeIff` | crates/nid-storage/src/session_repo.rs:192-193 | two days share a row if and only if month and day agree and the years differ by a multiple of 2^32 |
| `GainDaily.InRangeIff` | crates/nid-storage/src/session_repo.rs:268-280 | the days before day 784351576777 are exactly those since the epoch whose year fits the cast |
| `GainDaily.KeysDistinct` | crates/nid-storage/src/session_repo.rs:192-193 | two days since the epoch whose years fit 32 bits share a row only if they are the same day |
| `GainDaily.RollupIsPerRow` | crates/nid-storage/src/session_repo.rs:182-208 | after any history, the row of a day is the total of exactly the runs on days that share it, and there is no row without such a run |
| `GainDaily.RowIsDayIff` | crates/nid-storage/src/session_repo.rs:182-208 | that row counts exactly the runs of its own day if and only if no run falls on another day that shares it |
| `GainDaily.RollupIsPerDay` | crates/nid-storage/src/session_repo.rs:182-208 | as long as all years fit 32 bits, no two days are merged: the row of a day is the total of exactly that day's runs, and a day without runs has no row |
| `GainDaily.TotalsAddUp` | crates/nid-storage/src/session_repo.rs:195-206 | in each total, every column is the sum of that field over the runs it counts, and the runs are counted |
| `Signing.Resolve` | crates/nid-core/src/signing.rs:112-153 | returns a key exactly when keys lead from the anchor to the target in at most 65 steps, each by the first link under the key's id, which names the next key and is signed for it by the key; a link met before the target that is undecodable, misnamed, unreadably signed or signed by another makes it fail with that fault |
| `Signing.HopLimitIsEnough` | crates/nid-core/src/signing.rs:126-133 | with at most 65 links the hop limit rejects no target the walk can reach in any number of steps, cycles included |
| `Signing.HonestChainResolvesIff` | crates/nid-core/src/signing.rs:94-153 | a chain of links made by the key holders resolves its last key to exactly that key, if and only if it has at most 65 links |
| `Fingerprint.CanonicalizeArgv` | crates/nid-core/src/fingerprint.rs:92-127 | the stride loop over one or two tokens equals a pointwise map with one token of look-behind |
| `Fingerprint.TokenIdempotent` | crates/nid-core/src/fingerprint.rs:64-90 | canonicalizing a token twice is canonicalizing it once, reduced URLs included |
| `Fingerprint.KindsKept` | crates/nid-core/src/fingerprint.rs:54-127 | a canonical token is a flag exactly when the token was, with the same key and an inline value exactly when there was one |
| `Fingerprint.CanonicalArgvLaws` | crates/nid-core/src/fingerprint.rs:92-127 | token count and flag positions are preserved, and canonicalization is idempotent |
| `Fingerprint.NumbersCollapse` | crates/nid-core/src/fingerprint.rs:92-127 | argument lists that differ only in numbers at non-shape value positions get the same result |
| `Fingerprint.LiteralsKept` | crates/nid-core/src/fingerprint.rs:64-127 | the value after a shape-defining flag, such a flag with its value, and flags without one are kept as written |
| `Fingerprint.LiteralsTellApart` | crates/nid-core/src/fingerprint.rs:92-127 | argument lists that differ at such a place have different canonical forms |
| `Fingerprint.ValuesReduced` | crates/nid-core/src/fingerprint.rs:64-127 | every other value, alone or behind its flag: numbers, hexadecimal strings, URLs (to scheme and host), paths and texts with blanks are reduced, in that order, and the rest stays |
| `Layer1.Compress` | crates/nid-core/src/layers/layer1.rs:68-145 | for every stream and every head and tail setting, the single pass with a ring buffer equals: clean each line, merge equal neighbours, then all, the head, the tail, or head plus marker plus the last lines of the rest; the marker's bytes are not counted as written |
| `Layer1.MarkerWithoutElision` | crates/nid-core/src/layers/layer1.rs:119-127 | the marker is printed as soon as there are more lines than the head, with the numbers of lines printed before and after it, while lines are lost only beyond head plus tail |
| `Layer1.CleanLaws` | crates/nid-core/src/layers/layer1.rs:83-88 | each option does its own clean-up: all trailing carriage returns first, then escape sequences |
| `Bypass.Tracker.Observe` | crates/nid-fidelity/src/bypass.rs:51-62 | counts the run and, past the warm-up, pushes its capped score, dropping the oldest when the window is full |
| `Bypass.TrackerHoldsWindow` | crates/nid-fidelity/src/bypass.rs:51-62 | after any history the tracker holds exactly the capped scores of the last `window` runs past the warm-up, and all of them when the window is zero |
| `Bypass.ScoreBounds` | crates/nid-fidelity/src/bypass.rs:64-74 | for capped scores, the average lies between 0 and 1, and exceeding a threshold takes more than that fraction of them to be positive |
| `Bypass.WeightsByKind` | crates/nid-fidelity/src/bypass.rs:21-31 | a run weighs its signals by kind, each as often as it shows |
| `Bypass.TrackerScoreBounds` | crates/nid-fidelity/src/bypass.rs:51-74 | after any history the tracker's score is the average over its window, lies between 0 and 1, is at least a fifth of the share of runs with a bypass signal, and exceeds a threshold only if more than that share of runs had one |
| `Bypass.LoggedSessions` | crates/nid-storage/src/fidelity_repo.rs:79-99 | the stamp of a session is the greatest time among its events, and it has one if and only if it has an event |
| `Bypass.RecentSessions` | crates/nid-storage/src/fidelity_repo.rs:79-99 | selects distinct logged sessions, latest first, as many as the window allows, none left out that is later than one listed |
| `Bypass.RollingBypassScore` | crates/nid-storage/src/fidelity_repo.rs:79-119 | averages the capped weights of the sessions so selected |
| `Bypass.LogScoreEqualsTracker` | crates/nid-storage/src/fidelity_repo.rs:79-119 | with no warm-up and one strictly later-stamped session per run, the score from the event log equals the tracker's |
| `HookMerge.InjectEntries` | crates/nid-hooks/src/installer.rs:122-187 | existing entries stay in front, at most nid's own entry is added, only when none runs the binary, and afterwards one does; a value that is no array is left alone |
| `HookMerge.MentionsIff` | crates/nid-hooks/src/installer.rs:122-187 | an entry counts as nid's own if and only if a command in it contains the binary's path, somewhere |
| `HookMerge.AddedEntry` | crates/nid-hooks/src/installer.rs:122-187 | the entry added stands last, is for the shell tool, and runs the binary with the hook's name |
| `HookMerge.CommandsPlaced` | crates/nid-hooks/src/installer.rs:98-187 | for each agent, the full path at which the merged document holds the command, and the command |
| `HookMerge.InjectIdempotent` | crates/nid-hooks/src/installer.rs:122-187 | merging a hook twice is merging it once |
| `HookMerge.InjectFrame` | crates/nid-hooks/src/installer.rs:122-187 | every path that diverges from the agent's list of entries denotes what it did |
| `HookMerge.InjectKeepsEntries` | crates/nid-hooks/src/installer.rs:122-187 | every path into an entry that was there denotes what it did |
| `HookMerge.MergeIdempotent` | crates/nid-hooks/src/installer.rs:98-118 | merging a merged file returns the same text |
| `HookMerge.MergeMeaning` | crates/nid-hooks/src/installer.rs:98-118 | a merge succeeds exactly on documents of the expected shape, absent and blank files counting as empty ones, and its text parses to the document with the hook merged in |
| `HookMerge.MergeUnchangedIff` | crates/nid-hooks/src/installer.rs:98-187 | the merge leaves a file byte for byte unchanged if and only if it is not blank, is printed the way the merge prints, and has the hook list, with an entry that runs the binary if it is an array |
| `HookMerge.MergeAiderYaml` | crates/nid-hooks/src/installer.rs:191-202 | returns the text unchanged when the key is set, else the text with the setting on a line of its own |
| `HookMerge.RawTestIsPerLine` | crates/nid-hooks/src/installer.rs:193-196 | the search for the key in the raw text asks exactly whether some line starts with it |
| `HookMerge.AiderLaws` | crates/nid-hooks/src/installer.rs:191-202 | every line stays, the setting becomes a last line exactly when no line sets the key, and afterwards a line does |
| `HookMerge.AiderIdempotent` | crates/nid-hooks/src/installer.rs:191-202 | merging the setting twice is merging it once, whatever the key |
| `HookMerge.AiderUnchangedIff` | crates/nid-hooks/src/installer.rs:191-202 | the merge leaves the file unchanged if and only if it is there and sets the key |
| `Installer.ConfigPathsApart` | crates/nid-hooks/src/agents.rs:77-88 | different agents have different configuration files, none of which is a temporary name or the backup |
| `Installer.BackupRoundTrip` | crates/nid-hooks/src/onboard.rs:54-59 | the backup document reads back as the originals it was made from, absent files included |
| `Installer.Disk.Apply` | crates/nid-hooks/src/installer.rs:27-67 | rewrites the planned files in order and then writes the backup, or stops at the first change that fails |
| `Installer.Disk.Uninstall` | crates/nid-hooks/src/installer.rs:70-96 | fails without any change when the backup is missing or unreadable, else puts back or deletes the file of every agent it names and touches no other file, in whatever order it goes |
| `InstallerLaws.UninstallRestores` | crates/nid-hooks/src/installer.rs:27-96 | one install that succeeds, then an uninstall: every file is as it was, absent ones absent, except the backup and temporary names |
| `InstallerLaws.InstallThenUninstall` | crates/nid-hooks/tests/uninstall_roundtrip.rs:66-115 | the same for the two calls made one after the other, and the uninstall cannot fail |
| `InstallerLaws.ApplySucceedsIff` | crates/nid-hooks/src/installer.rs:98-187 | an install succeeds if and only if every configuration it merges into is absent, blank, or an object whose hooks, if any, are an object |
| `InstallerLaws.FailedApplyKeepsNoBackup` | crates/nid-hooks/src/installer.rs:27-67 | an install that fails has rewritten every configuration before the refused one, touched none after it, and written no backup |
| `InstallerLaws.SecondApplyIsNoop` | crates/nid-hooks/src/installer.rs:27-67 | a second install succeeds and changes no configuration |
| `InstallerLaws.SecondApplyForgetsIff` | crates/nid-hooks/src/installer.rs:63-65 | after two installs, uninstalling restores a configuration if and only if the first install found it in a state it leaves alone: nothing to write, the key set, or the hook in a file printed the way the merge prints |
| `InstallerLaws.TwoInstallsKeepCreatedFile` | crates/nid-hooks/src/installer.rs:63-65 | after two installs, uninstalling does not remove a configuration that the first one created |

## Left out

- The regular-expression engine: patterns are arbitrary predicates on lines. A rule's pattern that does not compile matches nothing and is one of them; an invariant's pattern that does not compile is an error. For synthesized anchors a match is membership in the literal set.
- TOML and JSON text formats, zstd, SHA-256, Ed25519, AES-GCM and key files: uninterpreted, with the round-trip or match facts stated as hypotheses where used.
- Counters wider than any run: `usize` and `u64` overflow of counts and byte totals, and `i64` overflow in the date arithmetic; the one cast that loses information within range, the year, is modelled.
- Floating point: bypass weights are integer tenths and scores are exact rationals; exit-skew ratios are not modelled.
- Error messages and details: results carry a pass or an error kind, not the text.
- Updating a JSON document in place: `json_drop` and the hook merge return the updated document.
- BlobRefs.RunsKeepInv: one store call is one step; the removal of a blob's file outside its transaction is not split from the removal of its row.
- BlobRefs.NamedBlobsReadBack: assumes a hash without collisions.
- SynthLock.AtMostOnePromotion: the age of a lock file is not modelled: any lock may be found stale at any time, and the hypothesis is on whose lock is removed; the profile a language model returns is an arbitrary one.
- The manual synthesis command: it takes no lock, so only the one-active-row invariant covers it, as another command on the table.
- Fingerprint.CanonicalizeArgv: the number and path patterns are predicates constrained only in the characters they exclude; the binary name and the hash over the canonical form are not modelled.
- Layer1.Compress: reading and writing cannot fail, and invalid UTF-8 is outside the model.
- Installer.Disk.Apply: creating directories and file-system errors are not modelled; a file is text or absent, and a document the code panics on is a failed install.
- Installer.Disk.Uninstall: assumes the same home directory as the install.
- Redaction and the entropy heuristic, quarantine through the `run` command, command rewriting, agent and format detection, the validator's own rejections, bundles, CLI printing, signals and process spawning: input and output, or single-branch facts.
