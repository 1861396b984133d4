# Verified models of the service's hardest logic

This project models, in Dafny, the parts of the data-access service whose correctness cannot be seen from one function
body, and proves what they are for. Verify it with `dafny verify dfyconfig.toml`.

| modules | what they model |
|---|---|
| `Glob`, `GlobNfa`, `GlobScope` | index scope proofs: unions of `*`/`?` globs as an automaton, and the worklist search that decides inclusion or intersection for every possible index name |
| `FieldMatches`, `SemanticFields` | the greedy glob matcher for field selectors, and the search for semantic fields behind aliases |
| `Admission`, `AdmissionState`, `AdmissionRuns`, `AdmissionFairness`, `AdmissionController` | the admission controller: scheduling decisions, what each critical section keeps, whole runs with cancel and timeout races, the exact condition for bounded service, and the object with its loops |
| `Cursors`, `CursorRuns`, `CursorObjects` | owned native cursors: leases, the conservative horizon, uncertain cleanup, the self-rearming timer, process-wide slots and memory |
| `Json`, `JsonRead`, `Collate`, `CollateTags` | printed JSON, a reader of JSON text, and the textual freezing of collate templates |
| `Cache`, `Caches` | the metadata and result caches of MySQL and PostgreSQL |
| `SqlDrain` | draining SQL pages into one answer |
| `Budget`, `BudgetJson` | cutting MySQL results and batches to the byte limit, and the text whose length is limited |
| `Polynomial`, `KeySlot` | Redis Cluster hash slots and atomic batches |
| `SingleStatement` | the lexical one-statement rule before DuckDB prepares a query |
| `StrictJson` | the strict JSON token walker |
| `Common` | shared types and sums over maps |

Code that changes state step by step is a class or a method with loops, proved against functions on values; the
theorems about meaning and about whole runs are lemmas on those functions. A run is a finite sequence of states joined
by steps, one step for each critical section under a mutex or a gate; every theorem about runs holds for all of them.

## Assumptions

* Cursors: the server carries out a dispatched request within the maximum timeout of its dispatch or never, and may then
  keep the context for the longest lease sent so far, since a shorter renewal need not shorten an earlier one
  (`docs/ARCHITECTURE.md:238-239`). It may give the context another identifier with each request and names it in the
  response, except that PIT pages may leave out one that did not change. A confirmed close of the identifier that the
  context has ends it. Time never runs backwards, and each step reads the clock once.
* Collate: `toJson` writes the suggestion as a JSON string literal; `Collate.FillWithLiteral` holds for whatever it writes.
* Hash strings (markers, handles) are abstract; a collate marker has the form `:collate-` + hexadecimal digits and dashes + `:`.
* Deadlines are parameters: whether one has passed is told to each round or step that looks.
* Text lengths are counted in characters; for text outside ASCII, read its UTF-8 bytes as characters.

## Where the code differs from its documentation

* `docs/RFC-0001-performance-and-resource-governance.md:198-199` promises service within a bounded number of admissions
  to every continuously backlogged class. `AdmissionFairness.ServedIffUnhindered` says for which configurations this
  holds of which class. Where two can wait and a slot can be had at all, it is narrow: with a target cap below the global cap it holds of none, since the target of the one who waits
  can stay full; with a metadata reservation it fails for interactive and batch work, with a batch cap below the global
  cap for batch work, and for maintenance always, since interactive work may keep the last slot. Where no configuration
  is assumed, `AdmissionRuns.BoundedBypass` holds, whose premise is that the class passes the guard at each decision.
* The field matcher compares characters before it looks for a star, so a `*` in a field name swallows a star of the
  pattern; `FieldMatches.ExactIffNoStar` gives the exact condition, and `SemanticFields.SelectorsExactIffNoStar` what it
  means for semantic fields. The matcher only ever misses matches.
* A caller string that holds the text of the collate hole is filled as well; for the textual replacement of the hole
  `Collate.FillExactIffHoleFree` gives the exact condition. The frozen source is a template, so other tags in rendered
  caller text would be expanded too (`CollateTags.OtherTagRemains`); their expansion is not part of this model.
  When no key and no string of the rendered query holds `{{`, the holes are the only tags
  (`CollateTags.OnlyHolesAreTags`), and only then: `CollateTags.TagsLeftIff` for each suggestion, and
  `CollateTags.FreezeIsRightIff` for both differences at once.
* A query result cut to the byte limit can lose one row that would have fit, when setting the truncated flag saves the
  missing byte; `Budget.LosesRowsIff` says for which results.

Three branches of the source are proved unreachable: the release after the loop in `cleanupCursor`, the page-count error
in `executeSQL`, and, in the JSON walker, the cases of a key that is not a string and of a closing delimiter in place of
a value.

## Model

| member | source | states |
|---|---|---|
| `GlobNfa.ReachFacts` | internal/dialects/elasticsearch/scope.go:40-60 | chasing positions over stars reaches only positions from which nothing more is matched than before, and is closed |
| `GlobNfa.ClosureLang` | internal/dialects/elasticsearch/scope.go:40-60 | the closure of a state set accepts the same names |
| `GlobNfa.MoveComplete` | internal/dialects/elasticsearch/scope.go:61-76 | a name that a position of a closed state accepts is accepted, without its first character, by some position the move yields |
| `GlobNfa.MoveSound` | internal/dialects/elasticsearch/scope.go:61-76 | and nothing else is |
| `GlobNfa.StepLang` | internal/dialects/elasticsearch/scope.go:61-76 | the state after a character accepts exactly the rests of the accepted names that start with it |
| `GlobNfa.RunExact` | internal/dialects/elasticsearch/scope.go:61-84 | after reading a whole name the automaton is in an accepting state exactly when the name is in its language |
| `GlobNfa.PartitionComplete` | internal/dialects/elasticsearch/scope.go:109-116 | replacing every character that is no literal of the patterns by the symbol -1 leads to the same state: the alphabet is complete |
| `GlobNfa.CompiledLang` | internal/dialects/elasticsearch/scope.go:23-39 | the compiled start state accepts exactly the names some pattern matches |
| `GlobNfa.AutomatonUnique` | internal/dialects/elasticsearch/scope.go:23-39 | a list of patterns has one automaton |
| `GlobNfa.Nfa.Closure` | internal/dialects/elasticsearch/scope.go:40-60 | the sorted result holds exactly the closure |
| `GlobNfa.Nfa.Step` | internal/dialects/elasticsearch/scope.go:61-76 | the sorted result holds exactly the closed successor state |
| `GlobNfa.Nfa.Accepts` | internal/dialects/elasticsearch/scope.go:77-84 | true exactly for states that hold a pattern end |
| `GlobNfa.CompileGlobs` | internal/dialects/elasticsearch/scope.go:23-39 | succeeds exactly for valid patterns within the state budget, and then returns the one automaton of the patterns, which accepts exactly the names some pattern matches; each of the two errors names its reason |
| `GlobScope.StateKeyInjective` | internal/dialects/elasticsearch/scope.go:85-99 | two state pairs with one key are one pair, for all states whose indices fit 32 bits without reaching the separator |
| `GlobScope.EncodeKey` | internal/dialects/elasticsearch/scope.go:85-99 | the buffer filled word by word is the key |
| `GlobScope.Coverage` | internal/dialects/elasticsearch/scope.go:117-157 | when the worklist is exhausted every word leads to a queued pair, or to one from which no verdict can change |
| `GlobScope.ExhaustedMeansNone` | internal/dialects/elasticsearch/scope.go:122-157 | then no word over the alphabet decides the relation |
| `GlobScope.ExhaustedIsLargest` | internal/dialects/elasticsearch/scope.go:117-157 | different pairs that words over the alphabet reach, and from which something may follow, are never more than an exhausted queue holds, nor are they charged more |
| `GlobScope.ExhaustedFits` | internal/dialects/elasticsearch/scope.go:117-157 | a search that ends by exhaustion within its budgets proves that nothing there is to explore exceeds them |
| `GlobScope.Follow` | internal/dialects/elasticsearch/scope.go:133-155 | one turn of the inner loop queues the successor that was not seen before; it refuses only when a set of different reachable pairs exceeds the budget for transitions, memory or pairs |
| `GlobScope.SymbolsKeepMeaning` | internal/dialects/elasticsearch/scope.go:109-116 | a name decides the relation exactly when its word over the alphabet does |
| `GlobScope.Spell` | internal/dialects/elasticsearch/scope.go:109-116 | every word over the alphabet is the word of some index name: there is always an unused character for -1 |
| `GlobScope.Search` | internal/dialects/elasticsearch/scope.go:117-158 | a verdict is the exact one; resource_limit only when the product of the automata exceeds a budget, and never a negative answer when it does; deadline_exceeded only when the deadline had passed in some round |
| `GlobScope.GlobRelation` | internal/dialects/elasticsearch/scope.go:100-158 | inclusion: true iff every name some left glob matches is matched by some right glob; intersection: true iff some name is matched on both sides; names range over all finite names. An error names its reason: an invalid pattern, a list or a product of lists that exceeds a budget, or the deadline |
| `GlobScope.DeniedOrSystem` | internal/dialects/elasticsearch/scope.go:168-176 | adding the glob .* to the denied ones denies exactly the names that start with a dot as well |
| `GlobScope.ScopePattern` | internal/dialects/elasticsearch/scope.go:160-177 | success: every name the pattern matches is allowed, not denied and not a system name; scope_denied: some name it matches is not; any other error: an invalid pattern, a budget that one of the two products exceeds, or the deadline; none of them when all of that is ruled out |
| `FieldMatches.BlockIsLiteral` | internal/dialects/elasticsearch/query_mappings.go:138-164 | a block without stars that matches at all matches position by position |
| `FieldMatches.NextStar` | internal/dialects/elasticsearch/query_mappings.go:149-152 | committing to the leftmost place of a block when the next star is met loses no match |
| `FieldMatches.Backtrack` | internal/dialects/elasticsearch/query_mappings.go:153-157 | moving a failed block one place to the right loses no match |
| `FieldMatches.GreedyExact` | internal/dialects/elasticsearch/query_mappings.go:138-164 | from every reachable loop state the greedy search decides the glob, for names without a star |
| `FieldMatches.StarInNameMisleads` | internal/dialects/elasticsearch/query_mappings.go:144-152 | for every name with a star there is a pattern that covers it and is rejected |
| `FieldMatches.ExactIffNoStar` | internal/dialects/elasticsearch/query_mappings.go:138-164 | all patterns are decided correctly on a name if and only if the name has no star |
| `FieldMatches.AcceptedMatches` | internal/dialects/elasticsearch/query_mappings.go:138-164 | for every name, what the matcher accepts the pattern covers: where it is wrong it misses a match |
| `FieldMatches.AgreesWithAutomaton` | internal/dialects/elasticsearch/query_mappings.go:138-164 | greedy matcher and scope automaton of the same pattern agree on such names |
| `FieldMatches.QueryProof.Step` | internal/dialects/elasticsearch/dsl.go:19-28 | counts the step and lets it pass exactly before the deadline and within the traversal budget; each error names its reason |
| `FieldMatches.QueryProof.FieldMatches` | internal/dialects/elasticsearch/query_mappings.go:138-164 | the loop ends, and without a budget error returns the meaning of the glob for star-free names; an error only if the last step was past the deadline or one too many; it never takes more steps than (name + 1) * (pattern + 1) |
| `SemanticFields.SkipAhead` | internal/dialects/elasticsearch/query_mappings.go:105-117 | following aliases some way leaves exactly the rest of the way |
| `SemanticFields.CycleLeadsNowhere` | internal/dialects/elasticsearch/query_mappings.go:105-117 | a field that reaches itself resolves to nothing |
| `SemanticFields.Chase` | internal/dialects/elasticsearch/query_mappings.go:105-117 | the alias loop ends with the concrete field an alias leads to, or with none exactly when it dangles or cycles |
| `SemanticFields.SelectorsExactIffNoStar` | internal/dialects/elasticsearch/query_mappings.go:118-131 | on the name of a semantic field all selectors are decided correctly if and only if the name has no star |
| `SemanticFields.StarredFieldSlips` | internal/dialects/elasticsearch/query_mappings.go:118-131 | a mapping with a starred semantic field and a selector that covers it and is let through |
| `SemanticFields.SemanticMappingFields` | internal/dialects/elasticsearch/query_mappings.go:85-134 | success: every alias chain ends in a field, the matcher accepts no selector for a semantic one, and no selector covers the star-free name of a semantic one; capability_unavailable: some chain dangles, or the matcher accepts for a semantic field a selector that does cover its name; any other error: the last step was past the deadline or one too many |
| `Admission.DistanceInOrder` | internal/admission/admission.go:136-143 | the closed form of the round-robin distance is the first round that looks at the class |
| `Admission.PickIsOldest` | internal/admission/admission.go:150-160 | the waiter picked is the oldest of its class and target |
| `Admission.RoundHits` | internal/admission/admission.go:141-168 | a round that grants does so to a waiter that may run, and brings every other runnable class nearer |
| `Admission.ScanDecides` | internal/admission/admission.go:139-171 | a scan grants a waiter that may run, or finds that no class has one |
| `Admission.GuardIsAdmissible` | internal/admission/admission.go:175-200 | while a slot is free, the guard passes exactly those below their caps who leave more slots free than are kept for others: the reserved ones for waiting metadata work, one for waiting interactive work |
| `Admission.DecisionIsFirst` | internal/admission/admission.go:138-173 | a decision grants the first admissible waiter, by the round robin over classes and then by arrival, and grants nobody only when nobody is admissible |
| `Admission.UnreservedAreOpen` | internal/admission/admission.go:185-190 | with more slots free than anybody keeps, no waiter below its own caps is passed by a class that is looked at later |
| `AdmissionState.ActiveIsSum` | internal/admission/admission.go:129-134 | active is the sum over targets and the sum over classes |
| `AdmissionState.GrantKeeps` | internal/admission/admission.go:159-166 | granting keeps counters, caps and bookkeeping consistent |
| `AdmissionState.EnqueueKeeps` | internal/admission/admission.go:60-71 | so does queueing a waiter |
| `AdmissionState.ReturnKeeps` | internal/admission/admission.go:129-134 | so does giving a grant back |
| `AdmissionState.CancelKeeps` | internal/admission/admission.go:111-121 | so does withdrawing a waiter |
| `AdmissionRuns.DispatchSound` | internal/admission/admission.go:138-173 | dispatching ends, keeps everything, and stops at the cap or when nobody can be granted |
| `AdmissionRuns.RestMeansCapped` | internal/admission/admission.go:138-192 | below the global cap whoever waits is stopped by its target cap or its class cap, never by capacity kept free |
| `AdmissionRuns.NextInv` | internal/admission/admission.go:60-134 | every critical section of every caller keeps the invariant, and only outstanding grants are returned |
| `AdmissionRuns.RunInv` | internal/admission/admission.go:60-173 | the invariant holds at every point of every run |
| `AdmissionRuns.Safety` | internal/admission/admission.go:60-134 | in every run: counters equal outstanding grants and their sums, all caps hold, the queue bound holds, a grant is out exactly from its channel closing to its one return, also when cancel races with it |
| `AdmissionRuns.NothingLeftToDispatch` | internal/admission/admission.go:138-192 | the dispatch fixed point at every unlock of every run |
| `AdmissionRuns.BoundedBypass` | internal/admission/admission.go:136-173 | in every run a class that could be served at each decision is passed over at most 3 times (metadata, interactive) or 5 times (batch, maintenance) |
| `AdmissionRuns.GrantsAreFirst` | internal/admission/admission.go:136-173 | every grant of every run went to the first admissible waiter, and the scan goes on behind its class |
| `AdmissionRuns.NobodyAdmissible` | internal/admission/admission.go:138-200 | at every unlock of every run nobody who waits is admissible |
| `AdmissionRuns.ArrivalsAreTaken` | internal/admission/admission.go:60-71 | in every run a caller who finds fewer than the limit waiting is queued or granted at once |
| `AdmissionRuns.ArrivalOrder` | internal/admission/admission.go:150-160 | in every run, of two waiters of one class and target the earlier is granted first unless it was canceled |
| `AdmissionRuns.GrantedOnce` | internal/admission/admission.go:159-166 | nobody is granted twice |
| `AdmissionFairness.UnhinderedRuns` | internal/admission/admission.go:175-192 | when no cap of the class and no reserved capacity can stand in the way, whoever waits can be granted while a slot is free |
| `AdmissionFairness.ConditionSuffices` | internal/admission/admission.go:136-192 | then, in every run, a continuously backlogged class is passed over at most 3 or 5 times |
| `AdmissionFairness.ReservedForMetadata` | internal/admission/admission.go:185-187 | while metadata waits and only reserved slots are free, only metadata is granted |
| `AdmissionFairness.OnlyNewcomerRuns` | internal/admission/admission.go:175-192 | with one slot free and the class hindered, a newcomer of another class can be granted and the waiting caller cannot |
| `AdmissionFairness.Starves` | internal/admission/admission.go:60-192 | otherwise there is, for every configuration, class and n, a run in which somebody of the class waits through n grants to others |
| `AdmissionFairness.ServedIffUnhindered` | internal/admission/admission.go:136-192 | the exact condition on the configuration: some bound on passing over a backlogged class holds in all runs iff nobody can pass anybody at all, or perTarget >= global and the class is metadata, or interactive without a metadata reservation, or batch without one and with batchMax >= global |
| `AdmissionController.Controller.CanRunLocked` | internal/admission/admission.go:175-192 | computes the guard |
| `AdmissionController.Controller.TotalQueuedLocked` | internal/admission/admission.go:202-214 | counts the waiters not canceled |
| `AdmissionController.Controller.TryClass` | internal/admission/admission.go:141-168 | one turn of the inner loop is one round of the scan |
| `AdmissionController.Controller.DispatchLocked` | internal/admission/admission.go:138-173 | the nested loops compute the dispatch about which the run theorems speak |
| `AdmissionController.Controller.Enqueue` | internal/admission/admission.go:60-71 | refuses exactly when the queue is full, else queues and dispatches |
| `AdmissionController.Controller.Cancel` | internal/admission/admission.go:111-121 | gives a racing grant back, else withdraws |
| `AdmissionController.Permit.Release` | internal/admission/admission.go:123-127 | returns the grant once |
| `Cursors.DispatchGood` | internal/dialects/elasticsearch/cursor.go:315-335 | recording the horizon before sending covers the longest lease sent so far, whenever within the timeout the request is carried out |
| `Cursors.AnswerGood` | internal/dialects/elasticsearch/cursor.go:371-373 | an answer renews lease and horizon without uncovering the context |
| `Cursors.DispatchServes` | internal/dialects/elasticsearch/cursor.go:315-335 | a dispatch happens exactly with intact authority and a millisecond of lifetime left; it asks for whole milliseconds of the wanted lease, never beyond the absolute lifetime, and makes the handle usable that long |
| `Cursors.AnswerServes` | internal/dialects/elasticsearch/cursor.go:371-373 | an accepted page makes the handle usable for the lease it was requested with, within the absolute lifetime; an answer that names the context makes its identifier the newest one and ends the uncertainty |
| `Cursors.StaysUsable` | internal/dialects/elasticsearch/cursor_registry.go:121-126 | no step but a dispatch, its answer, a close, a recovery, the reaper after a change of authority, or the end of an SQL result takes a usable handle away |
| `Cursors.CleanupGood` | internal/dialects/elasticsearch/cursor_registry.go:151-208 | cleanup keeps the context covered whatever the server answers |
| `Cursors.RecoverGood` | internal/dialects/elasticsearch/cursor_registry.go:232-269 | so does recovery |
| `Cursors.StepGood` | internal/dialects/elasticsearch/cursor_registry.go:94-269 | every step of a cursor keeps its invariant, the server granting the longest lease sent so far and perhaps another identifier each time it carries out a request |
| `Cursors.ReleaseJustified` | internal/dialects/elasticsearch/cursor_registry.go:151-227 | a release happens only if nothing was dispatched, the newest identifier was confirmed closed without uncertainty, SQL was exhausted, or the horizon has passed |
| `Cursors.ReleasedWhenJustified` | internal/dialects/elasticsearch/cursor_registry.go:151-227 | and whenever a closing, recovering or expiring step has such a reason, it releases |
| `Cursors.CleanupIsTriedAgain` | internal/dialects/elasticsearch/cursor_registry.go:197-269 | a recovery that cannot release queues a cleanup; a failed close sets the time for the next attempt |
| `Cursors.DisabledForGood` | internal/dialects/elasticsearch/cursor_registry.go:121-126 | a disabled cursor stays so, its horizon stands still, and it never dispatches again |
| `Cursors.HorizonSparesUsable` | internal/dialects/elasticsearch/cursor_registry.go:210-227 | the horizon never frees a handle that could still be used |
| `Cursors.CallbackProgress` | internal/dialects/elasticsearch/cursor_registry.go:216-225 | a fired timer releases or arms once more, and at most three callbacks remain |
| `Cursors.RetirementProgress` | internal/dialects/elasticsearch/cursor_registry.go:210-227 | no step but a dispatch or an answer adds callbacks, and a callback uses one up |
| `Cursors.AbandonedContext` | internal/dialects/elasticsearch/cursor_registry.go:210-248 | the steps of a context that is opened, abandoned, disabled while it may still live, and released by its timer only after the horizon |
| `CursorRuns.NextInv` | internal/dialects/elasticsearch/cursor_registry.go:58-106 | reserving, recharging, releasing and every cursor step keep all cursors good and all accounts exact |
| `CursorRuns.RunInv` | internal/dialects/elasticsearch/cursor_registry.go:58-269 | at every point of every run |
| `CursorRuns.ReservationOutlivesContext` | internal/dialects/elasticsearch/cursor.go:315-335 | in every run, while the server context may still live under the longest lease sent so far, the cursor holds its slot and its memory |
| `CursorRuns.PageKeepsServing` | internal/dialects/elasticsearch/cursor.go:371-373 | in every run an accepted page keeps its handle usable for its lease, whatever other cursors, timers and the server do meanwhile |
| `CursorRuns.DispatchKeepsServing` | internal/dialects/elasticsearch/cursor.go:323-328 | so does a dispatch until its answer |
| `CursorRuns.ReservationGranted` | internal/dialects/elasticsearch/cursor_registry.go:58-92 | in every run a reservation is granted exactly when fewer contexts are open than allowed, in the process and on the target, and the memory left suffices |
| `CursorRuns.ReservationsConserved` | internal/dialects/elasticsearch/cursor_registry.go:58-106 | in every run slots in use equal open cursors, memory equals their charges, within the process limits, and per-target counts stay within theirs |
| `CursorRuns.NoReservationLeaks` | internal/dialects/elasticsearch/cursor_registry.go:210-227 | in every run a registered cursor is in the hands of a caller or has an armed timer or a callback waiting; a dispatched one has the latter in any case |
| `CursorRuns.DisabledStays` | internal/dialects/elasticsearch/cursor_registry.go:121-126 | in every run a disabled cursor never dispatches again and its horizon no longer moves |
| `CursorRuns.RetirementBound` | internal/dialects/elasticsearch/cursor_registry.go:210-227 | in every run, once dispatching stops, the third callback finds the cursor released |
| `CursorRuns.RetiredInTime` | internal/dialects/elasticsearch/cursor_registry.go:210-227 | in every run a cursor is released once its horizon has passed by the longest timeout, a millisecond and the delay d with which callbacks run |
| `CursorRuns.DisabledRetiredInTime` | internal/dialects/elasticsearch/cursor_registry.go:210-227 | for a disabled cursor that time is fixed from the moment it was disabled |
| `CursorObjects.Semaphore.TryAcquire` | internal/dialects/elasticsearch/cursor_registry.go:62-69 | takes the amount exactly when it is available |
| `CursorObjects.Registry.Backed` | internal/dialects/elasticsearch/cursor_registry.go:94-106 | what is given back for a registered cursor is held |
| `CursorObjects.Registry.ReserveCursor` | internal/dialects/elasticsearch/cursor_registry.go:58-92 | takes slot and memory and registers the cursor, or leaves everything as it was; the registry stays backed by the semaphores and what other targets hold is untouched |
| `CursorObjects.Registry.ReleaseCursor` | internal/dialects/elasticsearch/cursor_registry.go:94-106 | gives slot and memory back once, exactly what this cursor took: the registry invariant covers the remaining cursors and what other targets hold is untouched |
| `CursorObjects.Registry.UsableCursor` | internal/dialects/elasticsearch/cursor_registry.go:121-126 | decides the guard |
| `CursorObjects.Registry.CaptureCursorID` | internal/dialects/elasticsearch/cursor_registry.go:131-149 | keeps the newest identifier and its predecessor and clears uncertainty, or refuses an identifier of the wrong form |
| `CursorObjects.Registry.RetireCursorAtLeaseEnd` | internal/dialects/elasticsearch/cursor_registry.go:210-219 | releases after the horizon, else arms the timer |
| `CursorObjects.Registry.RetireCallback` | internal/dialects/elasticsearch/cursor_registry.go:216-225 | is the timer callback of the run model |
| `CursorObjects.Registry.CleanupCursor` | internal/dialects/elasticsearch/cursor_registry.go:151-208 | is the cleanup of the run model; the release after the loop is unreachable |
| `CursorObjects.Registry.RecoverCursor` | internal/dialects/elasticsearch/cursor_registry.go:232-248 | is the recovery of the run model |
| `CursorObjects.Registry.BeginCursorDispatch` | internal/dialects/elasticsearch/cursor.go:315-335 | is the dispatch of the run model |
| `CursorObjects.Registry.TakeAnswer` | internal/dialects/elasticsearch/cursor.go:371-373 | is the answer of the run model |
| `CursorObjects.Registry.UpdateCursorQuery` | internal/dialects/elasticsearch/cursor.go:254-293 | grows or shrinks the charge with the semaphore, or refuses and changes nothing |
| `Collate.CandidateScalarsIff` | internal/dialects/elasticsearch/collate.go:128-154 | accepts exactly the trees in which no key holds the marker, every scalar with the marker is the marker, and no script source or id holds it |
| `Collate.ContainsMarkerIff` | internal/dialects/elasticsearch/collate.go:156-175 | true exactly when some string or key below holds the marker |
| `Collate.ReplaceValue` | internal/dialects/elasticsearch/collate.go:99-104 | replacing a quoted marker in printed text is replacing the value in the tree, at every depth and in every context |
| `Collate.FreezeIsSubstitution` | internal/dialects/elasticsearch/collate.go:83-104 | the frozen text is the printed tree with exactly the marker values replaced by the hole |
| `Collate.FillWithLiteral` | internal/dialects/elasticsearch/collate.go:99-104 | whatever text is written for the hole, it stands in the marker places of the tree and nowhere else |
| `Collate.FillIsSubstitution` | internal/dialects/elasticsearch/collate.go:99-104 | filling the hole with a suggestion prints the tree with the suggestion in the marker places |
| `Collate.FilledReadsBack` | internal/dialects/elasticsearch/collate.go:99-104 | and the filled text is JSON that a reader after RFC 8259 reads as that tree, whatever the suggestion contains |
| `Collate.FillExactIffHoleFree` | internal/dialects/elasticsearch/collate.go:99-104 | replacing the text of the hole is exact for all suggestions if and only if no caller string or key holds that text |
| `CollateTags.TagFreeIsHoleFree` | internal/dialects/elasticsearch/collate.go:99-104 | a query without {{ in any key or string holds no text of the hole |
| `CollateTags.PrintOpensNoTag` | internal/dialects/elasticsearch/collate.go:95-99 | printing such a query writes {{ nowhere |
| `CollateTags.OnlyHolesAreTags` | internal/dialects/elasticsearch/collate.go:99-104 | of such a query the holes are the only template tags: filled with text that opens none, none is left |
| `CollateTags.TagsLeftIff` | internal/dialects/elasticsearch/collate.go:99-104 | as long as no caller text looks like the hole, the filled template has a tag left if and only if some key or string of the query opens one |
| `CollateTags.FreezeIsRightIff` | internal/dialects/elasticsearch/collate.go:83-104 | freezing is exact for all suggestions and leaves no tag to expand if and only if no key or string of the query opens one |
| `CollateTags.OtherTagRemains` | internal/dialects/elasticsearch/collate.go:72-104 | a caller string with another tag is accepted and its tag stays in the frozen template |
| `JsonRead.PrintReads` | internal/dialects/elasticsearch/collate.go:95-99 | a reader written after RFC 8259 gives back every printed value and leaves what follows it |
| `JsonRead.TextReads` | internal/dialects/elasticsearch/collate.go:95-99 | a printed text reads as the tree it was printed from |
| `JsonRead.PrintInjective` | internal/dialects/elasticsearch/collate.go:95-99 | printed values are uniquely readable |
| `Cache.EvictedLongest` | internal/dialects/mysql/metadata_cache.go:118-120 | what eviction leaves is the longest prefix of the list within both bounds |
| `Cache.RunByLastUse` | internal/dialects/mysql/metadata_cache.go:38-55 | in every run the list is ordered by the last time each key was stored or found |
| `Cache.LastUseIsLast` | internal/dialects/mysql/metadata_cache.go:38-55 | that time is that of the last operation that stored or found the key |
| `Cache.EvictedLeastRecent` | internal/dialects/mysql/metadata_cache.go:102-127 | what an insertion evicts was last used before everything it keeps |
| `Cache.NewestSurvives` | internal/dialects/mysql/metadata_cache.go:109-120 | an admitted entry survives its own insertion |
| `Cache.RunAgrees` | internal/dialects/mysql/metadata_cache.go:38-55 | after any operations the bounded cache holds only what the unbounded one holds |
| `Cache.HitIsLastAdmitted` | internal/dialects/mysql/metadata_cache.go:38-55 | a hit is the value last admitted for its key since the last clear, unexpired |
| `Cache.HitIff` | internal/dialects/mysql/metadata_cache.go:38-55 | a hit is an unexpired entry of the list, and every unexpired entry is hit |
| `Cache.LeavesOnly` | internal/dialects/mysql/metadata_cache.go:102-148 | an entry leaves only by clearing, replacement, a lookup after its expiry, or when the entries up to it no longer fit |
| `Cache.HitsLikeUnbounded` | internal/dialects/mysql/metadata_cache.go:38-55 | as long as all that was admitted fits, a lookup hits exactly when the unbounded cache holds an unexpired entry |
| `Cache.Store.Lookup` | internal/dialects/mysql/metadata_cache.go:38-55 | map, list and counter change as the abstract cache does |
| `Cache.Store.Insert` | internal/dialects/mysql/metadata_cache.go:102-127 | replacing, pushing and the eviction loop compute the abstract insertion and keep map, list and counter in step |
| `Cache.Store.Remove` | internal/dialects/mysql/metadata_cache.go:129-136 | removes one entry from all three |
| `Caches.OneLeader` | internal/dialects/mysql/metadata_cache.go:57-100 | between two leaders of one key the first has finished |
| `Caches.RefreshesSpaced` | internal/dialects/mysql/metadata_cache.go:78-100 | two forced refreshes of a key are a cooldown apart unless the times were forgotten |
| `Caches.TurnExact` | internal/dialects/postgresql/cache.go:53-76 | after any history a caller follows exactly while somebody leads the key and has not finished, is held back exactly when it forces a refresh within the cooldown of the last one not forgotten, and leads otherwise |
| `Caches.MetadataCache.TakeTurn` | internal/dialects/postgresql/cache.go:53-76 | leads, follows or cools down as the call history demands |
| `Caches.MetadataCache.Conclude` | internal/dialects/postgresql/cache.go:78-101 | admits what fits and ends the flight |
| `Caches.MetadataCache.Clear` | internal/dialects/mysql/metadata_cache.go:138-148 | empties the cache, and forgets refresh times where the source does |
| `Caches.ResultCache.Get` | internal/dialects/mysql/result_cache.go:30-46 | returns value and age of an unexpired entry |
| `Caches.ResultCache.Put` | internal/dialects/mysql/result_cache.go:48-67 | caches exactly the untruncated results within the entry bound, which are then there |
| `SqlDrain.ValidateSQLPage` | internal/dialects/elasticsearch/sql_cursor.go:200-293 | succeeds exactly for pages of the fixed schema, orientation and shape within the row limit, and counts their rows; resource_limit exactly when only the row limit is missed |
| `SqlDrain.SqlCursor.SqlPage` | internal/dialects/elasticsearch/sql_cursor.go:182-192 | accepts exactly good pages, none of them empty unless it is the last |
| `SqlDrain.PagesBringRows` | internal/dialects/elasticsearch/sql_cursor.go:186-190 | there are never more pages than rows |
| `SqlDrain.InBounds` | internal/dialects/elasticsearch/sql_cursor.go:348-352 | a later page never has more columns than were gathered |
| `SqlDrain.MergedRows` | internal/dialects/elasticsearch/sql_cursor.go:346-356 | the merged data holds the rows of all pages in order |
| `SqlDrain.DrainExact` | internal/dialects/elasticsearch/sql_cursor.go:314-369 | a completed read is that concatenation, with no more rows than allowed |
| `SqlDrain.DrainsIff` | internal/dialects/elasticsearch/sql_cursor.go:314-369 | the read completes exactly when all pages are good, the last one is the end, the merge fits and the rows of all pages together are no more than allowed |
| `SqlDrain.ColumnarIsTranspose` | internal/dialects/elasticsearch/sql_cursor.go:345-356 | the columnar answer is the transpose of the row answer |
| `SqlDrain.SqlCursor.ExecuteSQL` | internal/dialects/elasticsearch/sql_cursor.go:314-369 | succeeds exactly when some page completes the read within all limits, and returns the merge; an error is that of the first page that is refused, crosses a limit or leaves the cursor unusable; the page-count error cannot occur |
| `Budget.SizeMonotone` | internal/dialects/mysql/target.go:485-498 | fewer rows never print longer |
| `Budget.EnforceQueryBudget` | internal/dialects/mysql/target.go:476-511 | leaves a fitting result alone; else keeps the longest row prefix that fits under the original flag, counts it and marks the result, and fails exactly when the empty truncated form does not fit; rows that fit in the form sent are lost exactly under the condition of LosesRowsIff |
| `Budget.LosesRowsIff` | internal/dialects/mysql/target.go:500-510 | rows are lost that would have fit in the form sent if and only if the flag was not set and some row count misses the limit by exactly one byte |
| `Budget.OneByteShort` | internal/dialects/mysql/target.go:500-510 | a result that loses such a row |
| `Budget.TrimKept` | internal/dialects/mysql/batch.go:170-178 | one trim turns each cut of a batch into the next smaller one |
| `Budget.KeptIsHonest` | internal/dialects/mysql/batch.go:170-182 | every cut keeps whole results and a row prefix of the last, marks what was cut, and keeps the counts equal to what is there |
| `Budget.LargestIsHonest` | internal/dialects/mysql/batch.go:159-183 | so does the cut that the batch budget ends with |
| `Budget.LargestUnique` | internal/dialects/mysql/batch.go:159-183 | at most one cut is the largest that fits |
| `Budget.BatchResult.EnforceBatchBudget` | internal/dialects/mysql/batch.go:159-183 | ends with the largest cut that fits: whole results, the last one a row prefix; fails exactly when no cut fits |
| `BudgetJson.SizeIsLength` | internal/dialects/mysql/target.go:476-482 | the size of a result is the length of its JSON text |
| `BudgetJson.CutMeasured` | internal/dialects/mysql/target.go:485-501 | cutting the sizes is cutting the rows of the text |
| `BudgetJson.BatchSizeIsLength` | internal/dialects/mysql/batch.go:161-165 | the size of a batch is the length of its JSON text |
| `BudgetJson.DecimalDenotes` | internal/dialects/mysql/target.go:489 | a count is printed with that many decimal digits, which denote it |
| `Polynomial.RemainderUnique` | internal/dialects/redis/policy.go:185-195 | division by x^16+x^12+x^5+1 over two elements has one remainder |
| `KeySlot.StepDivides` | internal/dialects/redis/policy.go:188-194 | one turn of the inner loop multiplies by x and takes the generator away |
| `KeySlot.CrcIsRemainder` | internal/dialects/redis/policy.go:185-195 | the checksum is the remainder of the message times x^16, and nothing else is (CRC16 appendix of the Redis Cluster Specification) |
| `KeySlot.SlotBits` | internal/dialects/redis/policy.go:196 | reducing modulo 16384 keeps the fourteen lowest coefficients |
| `KeySlot.SlotOfRemainder` | internal/dialects/redis/policy.go:178-197 | the digits of the slot are the lowest coefficients of the remainder of what is hashed |
| `KeySlot.HashedIsTag` | internal/dialects/redis/policy.go:179-184 | what is hashed is the text between the first brace and the first closing brace after it when that is not empty, else the whole key ("Hash tags", Redis Cluster Specification) |
| `KeySlot.SameTagSameSlot` | internal/dialects/redis/policy.go:178-197 | keys with one hash tag share the slot of the tag |
| `KeySlot.Crc16` | internal/dialects/redis/policy.go:185-195 | the nested loops compute the checksum |
| `KeySlot.RedisKeySlot` | internal/dialects/redis/policy.go:178-197 | tag search and loops compute the slot, in 0..16383 |
| `KeySlot.SlotCell.ExtendAtomicSlot` | internal/dialects/redis/batch.go:161-173 | accepts exactly non-empty lists of one slot that agree with the slot bound before |
| `KeySlot.CheckAtomic` | internal/dialects/redis/batch.go:53-65 | a batch is accepted exactly when all its keys lie in one slot and every command has a key |
| `KeySlot.TaggedBatch` | internal/dialects/redis/batch.go:53-65 | a batch whose keys carry one hash tag is accepted |
| `SingleStatement.SegmentPasses` | internal/duckdbworker/worker.go:298-366 | the scanner passes over one lexical segment exactly, and refuses it exactly when it comes after the semicolon |
| `SingleStatement.SegmentedDecides` | internal/duckdbworker/worker.go:298-371 | on a query that can be segmented it decides the one-statement rule |
| `SingleStatement.ScanSegments` | internal/duckdbworker/worker.go:298-371 | a query it accepts can be segmented |
| `SingleStatement.ScanIsAccepted` | internal/duckdbworker/worker.go:288-371 | it accepts exactly the segmentable queries of one statement |
| `SingleStatement.SegmentationUnique` | internal/duckdbworker/worker.go:288-371 | a query is segmented in at most one way |
| `SingleStatement.DollarTag` | internal/duckdbworker/worker.go:321-331 | finds the dollar tag that opens here, if one does |
| `SingleStatement.SingleStatement` | internal/duckdbworker/worker.go:288-371 | the loop returns true exactly for such queries |
| `StrictJson.ValueWritten` | internal/dialects/elasticsearch/json.go:29-77 | the walker reads a written value back exactly when keys, strings, depth and count are within bounds, and counts all its values |
| `StrictJson.ValueRead` | internal/dialects/elasticsearch/json.go:29-77 | what it reads was the writing of a value |
| `StrictJson.WriteUnique` | internal/dialects/elasticsearch/json.go:26-90 | a token text is the writing of one value only |
| `StrictJson.ValidateIsStrict` | internal/dialects/elasticsearch/json.go:22-90 | accepted exactly the texts of one value with unique sibling keys, bounded depth and bounded count, and nothing after it |
| `StrictJson.CodesMeanIt` | internal/dialects/elasticsearch/json.go:22-90 | invalid_response only for texts that no limits would make acceptable; resource_limit only when a limit is smaller than a text of that length could need |
| `StrictJson.TokenBeforeValue` | internal/dialects/elasticsearch/json.go:37-44 | where a value may come the decoder never hands out a closing delimiter |
| `StrictJson.TokenBeforeKey` | internal/dialects/elasticsearch/json.go:49-61 | where a key may come it hands out strings only |
| `StrictJson.Walker.Walk` | internal/dialects/elasticsearch/json.go:29-77 | the recursive walker with its shared counter computes that reading |
| `StrictJson.StrictJson` | internal/dialects/elasticsearch/json.go:22-90 | and so does the whole validation |

## Left out

- Network, TLS, drivers, subprocesses, tool registration, audit and metrics: their outcomes are parameters where a protocol needs them.
- The generated and external parsers (ANTLR, Vitess, pg_query), the query-language visitors and configuration validation: long lists of independent cases.
- `dateMathSource`, `requestSourcePattern` and `concreteName`: conditions without state.
- Go's pointer identity of waiters: a waiter is named by its arrival number, its closed channel and canceled flag are sets of such numbers.
- AdmissionController.Controller.Enqueue: covers the critical section of `Acquire`; the select with its timer appears in `AdmissionRuns.Next` as the caller's choice.
- CursorObjects.Registry.ReserveCursor: takes the semaphore pair and the map change as one step, as `CursorObjects.Registry.ReleaseCursor` does; Go's interleavings between the two semaphore calls are not modelled, nor is the failing random source.
- CursorObjects.Registry.RecoverCursor: the background goroutine appears in the run model as a cleanup step at any later time; its own admission permit and its response memory are not modelled.
- The search engine's answers to PIT and scroll pages beyond identifier, lease and hit count; the mapping and aggregation checks between them.
- `mustacheTags` and the rendering before the marker is looked for; Mustache evaluation: only the hole left by freezing is modelled, filled with a JSON string; other tags in caller text are told apart but not expanded.
- JsonRead.PrintInjective: fixes Go's escaping, but object keys keep the order of the tree rather than Go's sorted order, and numbers are their own text.
- Copying cached values (`cloneMetadata`, `cloneQueryResult`) and the follower's wait for its leader; cached values are opaque strings with a size.
- Budget.EnforceQueryBudget: sees encoded lengths of rows, not their contents (`BudgetJson` ties them to the text); the constant part of the encoding is one number, and encoding errors are not modelled.
- SqlDrain.ValidateSQLPage: takes the checks on control fields as one optional failure code and the checks on column entries as one flag.
- StrictJson.StrictJson: works on tokens: UTF-8, number syntax, string escapes and the request deadline are not part of this model; the standard library's decoder is described by `StrictJson.Token`.
- SingleStatement.SingleStatement: sees the query as characters, of which only ASCII ones matter.
- Field collection from nested mappings: `SemanticFields` starts from the flat map of field names.
