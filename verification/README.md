# Memora: models and proofs

Memora is a chat-memory plugin.  This project models the parts of it that carry real state,
concurrency or arithmetic, and proves what they promise.  One module stands for one source file or one
component; `Options`, `Sequences`, `Sets`, `Sorting` and `OrderedDict` hold what several of them share.

| file | what it models |
|---|---|
| `Singleflight.dfy` | callers that share one running embedding task: join, completion, cancellation, release |
| `OrderedDict.dfy`, `LruCache.dfy`, `TtlCache.dfy` | the two fallback caches and the synchronous `cached` decorator |
| `LlmBudget.dfy` | the request-level budget of extra model calls and its clients |
| `JsonQuotes.dfy` | the quote-normalising state machine and the balancing tail of the JSON repair |
| `Options.dfy`, `Sequences.dfy`, `Sets.dfy`, `Sorting.dfy` | optional values, and facts about sequences, sets and sorting |
| `MultiQueryFusion.dfy` | the budget split over queries and reciprocal rank fusion |
| `PlanSearch.dfy` | the search over the queries of a plan: evidence gate, cut to the budget, fusion |
| `GraphKeyword.dfy` | the merge of the five graph hit lists |
| `GraphVector.dfy` | the delete-until-empty loop and the batched insert of graph vectors |
| `Provenance.dfy` | the validation and the merge of domain provenance |
| `MemoryLifecycle.dfy` | add, update and delete over full-text rows, vectors and the documents table |
| `Mmr.dfy` | greedy reranking by maximal marginal relevance |
| `Rollout.dfy` | recommendation, apply, audit, fallback and rollback of the candidate-reuse configuration |
| `DualRoute.dfy` | atom evidence, keyword route weights and the fused score of the two routes |
| `MemoryStatus.dfy` | the SQL and the Python reading of the lifecycle status, and its setter |

## How to read the models

Code that changes things step by step is a class or a method with loops, proved equal to a function of
its inputs or of the old state; the lemmas are about that function.  Two protocols are transition
systems over all interleavings: no suspension happens while a lock is held, so joining a flight, releasing
a waiter, reserving, committing and releasing are atomic steps.

Calls into stores, providers, clocks and random identifiers are parameters: what a backend answers, how a
statement ends (done, raised, or cancelled, before or after its commit took), the instant at which a clock is
read, and the fresh identifier that is drawn.  Floating-point numbers are reals; rounding to six decimals is
a function on reals.  Texts whose content does not matter are opaque.  A configuration revision is a hash
of the whole configuration and is modelled by the configuration itself.

Lemmas named `...IsExactly` say what an operation computes in literal constants and conditions on its input, rather
than through the helper functions that define it.

## What turned out not to hold, and exactly when it does

- Fusing by reciprocal rank keeps Pareto dominance for every constant of zero or more; with -1 and -2 any
  dominated document makes it divide by zero, and for every smaller constant dominance fails
  (`DominantPrecedes`, `DominatedDividesByZero`, `DominanceFailsBelow`).
- Caches of two sizes need not agree on a value once calls and assignments of different values mix.  They
  disagree on a key of the smaller one exactly when the last operation that gave it a value there was a call
  that the larger one answered with another value; over one function they always agree (`SmallerAgreesIff`,
  `OneFunctionAgrees`).
- The score of a merged graph hit depends on the order of the hits; its bounds do not.  Below the cap some
  order changes it exactly when the positive accepted weights are not all equal, and it reaches the upper bound
  exactly when the first of them is the largest (`ScoreDependsOnOrder`, `ScoreBounds`, `OrderShowsIff`,
  `ScoreReachesBoundIff`).
- Provenance merge is associative except on the inputs named by `OrderMatters`: one order meets two scopes
  where the other does not, because a source that is replaced no longer counts (`AssociativeIff`).
- A deletion that answers false may have lost the full-text rows, and a cancellation in the vector call always
  loses them, since a cancellation is not caught by the handlers for exceptions (`FalseMeansKept`,
  `CancellationLosesRows`).
- Deleting a memory that has neither vector nor row may give it a row: exactly when its document remains with a
  text, the full-text deletion committed, the vector layer answers false or raises, and the restoring write takes
  (`RowBroughtBackIff`).
- An update answers true although the refresh deleted the vector and failed to insert it again, or never
  started; `AgreementKeptIff` names every outcome after which vector, row and text disagree.
- A change may stay in force without an audit entry.  A save that took and was cancelled raises a cancellation,
  which no handler of an apply or a rollback catches, so neither the audit write nor the fallback is tried; a
  failed save that cannot be undone leaves the change too; and after a failed audit write the repair may find the
  change in place and be refused, fail or be cancelled.  `UnauditedChangeStaysIff` and `UnauditedRollbackStaysIff`
  give the exact condition for every write that gets as far as saving, `AuditFailureIsRepaired` the condition for
  the fallback to be in force.
- With `lambda = 0` the reranker stops once no new word set is left (`DiversityCount`).
- A recommendation whose buckets are all large is refused by every valid configuration: its threshold of 100
  exceeds the topic limit of at most 50 (`LargeBucketsAreRefused`, `ReportIsAcceptedIff`).
- A rollback restores the effective setting of a bucket only if the bucket had an override or the global mode
  was to observe: the normalized snapshot pins a missing override to observe, while the configuration lets it
  follow the global mode (`EffectRestoredIff`).
- A revision is a content hash, so a rollback also proceeds when others wrote in between and ended at the same
  content (`RollbackRestores`, `RollbackYieldsToOthers`).
- Closing an odd number of quotes is a heuristic; `CloseQuoteClosesIff` says when it leaves no string open.

## Model

| member | source | states |
|---|---|---|
| Singleflight.StepKeepsInv | core/features/retrieval/embedding_singleflight.py:59-94 | every join, completion, departure and collection keeps: exact waiter counts, callers on the registered flight, no abandoned live task |
| Singleflight.WaiterCountIsExact | core/features/retrieval/embedding_singleflight.py:66-90 | in every reachable state a registered flight counts exactly its waiting callers, at least one, and nobody waits on an unregistered one |
| Singleflight.ReleaseGuardNeverTaken | core/features/retrieval/embedding_singleflight.py:83-88 | a leaving caller always finds its own flight registered, and the count never goes below zero |
| Singleflight.CancelOnlyWithoutWaiters | core/features/retrieval/embedding_singleflight.py:87-92 | a task is asked to stop in a step if and only if that step is its only waiter leaving before it ended |
| Singleflight.CancelledTaskStaysUnwaited | core/features/retrieval/embedding_singleflight.py:66-92 | nobody ever waits again on a task that was asked to stop |
| Singleflight.OneLiveTaskPerKey | core/features/retrieval/embedding_singleflight.py:66-72 | at most one task per key runs without having been asked to stop |
| Singleflight.CallerGetsItsFlightOutcome | core/features/retrieval/embedding_singleflight.py:74-94 | a caller that has ended joined under its own key and left once; unless interrupted it holds the outcome that its own task ended with, and it collected its task exactly when its departure says so |
| Singleflight.OutcomeIsFinal | core/features/retrieval/embedding_singleflight.py:59-75 | what a task ended with is what every later state records for it |
| Singleflight.CallerHasJoined | core/features/retrieval/embedding_singleflight.py:66-72 | a caller is known exactly from its own join on, under the key of that join |
| Singleflight.CallerEndsAsItLeft | core/features/retrieval/embedding_singleflight.py:74-94 | whether a caller waits, collects or has ended is what its own departures in the run say |
| Singleflight.AskerCollects | core/features/retrieval/embedding_singleflight.py:79-94 | the caller whose departure asks a task to stop, and no other, stays to collect it |
| Singleflight.WaiterCanBeServed | core/features/retrieval/embedding_singleflight.py:74-75 | after any run a waiting caller can still be served, and then gets the outcome of its task |
| Singleflight.CollectorCanCollect | core/features/retrieval/embedding_singleflight.py:93-94 | a caller that waits for an asked task to wind up can collect it once the task ends |
| Singleflight.CancelledCallerCanEnd | core/features/retrieval/embedding_singleflight.py:74-94 | a cancelled caller can end by its own steps alone, at most two of them |
| Singleflight.CallerKeepsItsFlight | core/features/retrieval/embedding_singleflight.py:66-77 | key and flight of a caller never change over the run |
| Singleflight.QuiescentRegistryIsEmpty | core/features/retrieval/embedding_singleflight.py:87-94 | once all callers have left, the registry is empty and every task has ended or was asked to |
| Singleflight.SurvivorKeepsTask | core/features/retrieval/embedding_singleflight.py:74-92 | cancelling one of several callers leaves the shared task and its registration to the others |
| Singleflight.InFlightProxy.JoinFlight | core/features/retrieval/embedding_singleflight.py:66-72 | the registry in place: the flight of the key gains a waiter or a new flight with one waiter is registered |
| Singleflight.InFlightProxy.ReleaseWaiter | core/features/retrieval/embedding_singleflight.py:79-94 | the registry in place: a waiter is released, the last one unregisters the flight and reports an unfinished task |
| LruCache.RunBounded | core/shared/cache_manager.py:95-110 | over any trace no key occurs twice and the bound holds |
| LruCache.HeldKeyIsExactly | core/shared/cache_manager.py:99-110 | what a read, an assignment, a call and a deletion do to a held key: an access moves it to the end, all else keeps its order |
| LruCache.MissingKeyIsExactly | core/shared/cache_manager.py:95-110 | what they do to any other key: an assignment adds it, and a full cache gives up its oldest entry |
| LruCache.UnboundedIsLast | core/shared/cache_manager.py:104-110 | the unbounded map that the cache is compared with holds exactly the last assignments not deleted since |
| LruCache.AgreesWithUnbounded | core/shared/cache_manager.py:99-110 | whatever the cache holds is what an unbounded map holds |
| LruCache.CompleteWhenRoomy | core/shared/cache_manager.py:95-110 | with room for every assigned key the cache agrees with the unbounded map in both directions |
| LruCache.SmallerCacheIsSubsequence | core/shared/cache_manager.py:95-110 | of two caches driven by one trace the smaller holds a subsequence of the larger one's recency order; without decorated calls also equal values |
| LruCache.SmallerAgreesIff | core/shared/cache_manager.py:95-110 | over any trace, exactly when the smaller cache's value of a key is the larger one's |
| LruCache.OneFunctionAgrees | core/shared/cache_manager.py:219-233 | when calls and assignments are of one function, caches of all sizes agree on the keys they hold |
| LruCache.LargerCacheHitsMore | core/shared/cache_manager.py:219-233 | a larger bound never yields fewer hits on the same trace |
| LruCache.HitsAreExactly | core/shared/cache_manager.py:219-233 | the hits counted are the reads and calls that find their key among the entries of that moment |
| LruCache.CallsKeepMostRecent | core/shared/cache_manager.py:219-233 | through the decorator the cache holds exactly the most recently called keys that return, up to the bound |
| LruCache.CallsKeepValues | core/shared/cache_manager.py:226-233 | every value held is what the function returns for its key |
| LruCache.LruCache.EnsureCapacity | core/shared/cache_manager.py:95-97 | the newest entries remain; a negative bound empties the dictionary and fails |
| LruCache.LruCache.SetItem | core/shared/cache_manager.py:104-107 | the new contents after an assignment, newest last |
| LruCache.LruCache.GetItem | core/shared/cache_manager.py:99-102 | the value and the refreshed order, or nothing and no change |
| LruCache.LruCache.DelItem | core/shared/cache_manager.py:109-110 | the key is gone; fails exactly when it was absent |
| LruCache.CachedFunction.Call | core/shared/cache_manager.py:219-233 | one call gives what the function gives, moves exactly one counter, and stores only returned values |
| TtlCache.RunConsistent | core/shared/cache_manager.py:41-71 | entries and deadlines list the same keys within the bound over any trace |
| TtlCache.PurgeIsExactly | core/shared/cache_manager.py:41-48 | a purge keeps, in order, exactly the entries whose deadline is not past |
| TtlCache.HeldKeyIsExactly | core/shared/cache_manager.py:56-71 | a read purges and then makes the entry it finds the newest; an assignment sets value and deadline without purging |
| TtlCache.MissingKeyIsExactly | core/shared/cache_manager.py:50-71 | an assignment of a new key adds it with its deadline, and a full cache gives up its oldest entry |
| TtlCache.ReferenceIsLast | core/shared/cache_manager.py:63-71 | the remembered assignments are the last ones not deleted since, each due at its instant plus its time to live |
| TtlCache.RunRemembered | core/shared/cache_manager.py:56-71 | every entry is a remembered assignment with its own deadline |
| TtlCache.ReadIsFresh | core/shared/cache_manager.py:56-61 | a read returns the last assigned value and never one past its deadline |
| TtlCache.RoomyReadIsExact | core/shared/cache_manager.py:41-61 | with room and a monotone clock a read hits exactly the unexpired assignments |
| TtlCache.EvictKeepsNewest | core/shared/cache_manager.py:50-54 | eviction keeps the newest entries with their deadlines |
| TtlCache.SetEvictsOldest | core/shared/cache_manager.py:63-67 | an assignment does not purge: a full cache gives up its oldest entry, live or not |
| TtlCache.TtlCache.EvictExpired | core/shared/cache_manager.py:41-48 | exactly the expired entries and deadlines are removed |
| TtlCache.TtlCache.EnsureCapacity | core/shared/cache_manager.py:50-54 | the oldest entries beyond the bound go, with their deadlines |
| TtlCache.TtlCache.SetItem | core/shared/cache_manager.py:63-67 | the new entry last with its deadline, then eviction |
| TtlCache.TtlCache.GetItem | core/shared/cache_manager.py:56-61 | purges, then returns and refreshes the entry or fails |
| TtlCache.TtlCache.DelItem | core/shared/cache_manager.py:69-71 | entry and deadline go; fails exactly when the key is absent |
| TtlCache.TtlCache.Contains | core/shared/cache_manager.py:73-77 | purges and tells whether an unexpired entry is there |
| TtlCache.CachedFunction.Call | core/shared/cache_manager.py:219-233 | one call is right, and fails exactly when the entry expires between test and read or the bound is negative |
| LlmBudget.LedgerBalances | core/shared/extra_llm_budget.py:106-201 | successful reserves = used + open reservations + successful releases, within the limit |
| LlmBudget.OperationIsExactly | core/shared/extra_llm_budget.py:106-201 | a reservation opens a slot when one is free, a commit turns a named one into a used one, a release gives it back, and nothing else changes |
| LlmBudget.TokenTakesEffectOnce | core/shared/extra_llm_budget.py:190-201 | a token is committed or released with effect at most once over the run |
| LlmBudget.ForeignTokenIsInert | core/shared/extra_llm_budget.py:190-196 | a token of another budget, or no token, changes nothing |
| LlmBudget.StrayIsInert | core/shared/extra_llm_budget.py:190-201 | while clients keep to the protocol nobody else can take their reservations |
| LlmBudget.StepKeepsInv | core/shared/extra_llm_budget.py:264-299 | every entry, exit and stray token keeps one open reservation per running body and exact counts |
| LlmBudget.NeverOversold | core/shared/extra_llm_budget.py:106-118 | granted bodies that run or completed never exceed the limit, for any number of interleaved clients |
| LlmBudget.GrantedIffSlotFree | core/shared/extra_llm_budget.py:274-294 | a client is granted if and only if its feature is allowed and a slot is free |
| LlmBudget.ExitTakesEffect | core/shared/extra_llm_budget.py:293-299 | every granted body is settled exactly once, by commit or by release |
| LlmBudget.QuiescentBudget | core/shared/extra_llm_budget.py:289-299 | when no body runs, nothing is reserved and `used` counts the bodies that finished normally |
| LlmBudget.RemainingNeverClamped | core/shared/extra_llm_budget.py:94-104 | limit = used + reserved + remaining without ever clamping |
| LlmBudget.ExtraLlmBudget.Reserve | core/shared/extra_llm_budget.py:106-132 | the fields after a reservation or a refusal, and what the observer is told |
| LlmBudget.ExtraLlmBudget.TakeToken | core/shared/extra_llm_budget.py:190-201 | removes exactly the reservation that a valid token names |
| LlmBudget.ExtraLlmBudget.Commit | core/shared/extra_llm_budget.py:134-155 | the fields after a commit, and whether it took effect |
| LlmBudget.ExtraLlmBudget.Release | core/shared/extra_llm_budget.py:157-177 | the fields after a release, and whether it took effect |
| LlmBudget.EnterCall | core/shared/extra_llm_budget.py:264-294 | entering the context: the body runs exactly when a reservation was made |
| LlmBudget.ExitCall | core/shared/extra_llm_budget.py:293-299 | leaving it: release after an exception, commit otherwise |
| JsonQuotes.ConvertSingleQuotes | core/shared/json_utils.py:191-238 | the character loop computes the conversion that the lemmas are about |
| JsonQuotes.ConvertPreservesTokens | core/shared/json_utils.py:191-238 | reading the input with either quote gives the tokens and string contents of the output read with double quotes |
| JsonQuotes.IdentityIff | core/shared/json_utils.py:191-238 | the text is unchanged exactly when no unescaped single quote stands outside its double-quoted strings |
| JsonQuotes.ConvertIdempotent | core/shared/json_utils.py:191-238 | converting twice changes nothing more |
| JsonQuotes.NoSingleQuoteLeft | core/shared/json_utils.py:221-225 | no single quote opens a string in the output |
| JsonQuotes.OutputLegalIff | core/shared/json_utils.py:210-236 | the strings of the output are closed and legally escaped exactly when those of the input are |
| JsonQuotes.EscapedApostropheStaysIllegal | core/shared/json_utils.py:211-219 | a concrete input whose escaped apostrophe remains an escape that JSON does not know |
| JsonQuotes.BalanceTail | core/shared/json_utils.py:173-183 | the repair tail computes the balanced text that the lemmas are about |
| JsonQuotes.BalanceCounts | core/shared/json_utils.py:173-183 | only closers are appended, exactly as many as are missing by count |
| JsonQuotes.BalanceIsExactly | core/shared/json_utils.py:173-183 | the repair appends a quote when their number is odd, then the missing braces, then the missing brackets, and nothing else |
| JsonQuotes.CloseQuoteClosesIff | core/shared/json_utils.py:173-175 | exactly when the quote-count heuristic leaves no string open, said of the tokens of the text |
| MultiQueryFusion.SplitCandidateBudget | core/features/retrieval/multi_query_fusion.py:12-26 | one to three budgets that sum to the non-negative total and differ by at most one |
| MultiQueryFusion.BudgetCounts | core/features/retrieval/multi_query_fusion.py:18-26 | one budget for at most one query, two for two, three for more; they sum to the total, and a negative total gives zeros |
| PlanSearch.ActiveQueries | core/features/retrieval/dual_route_retriever.py:393-409 | exactly the first queries get a budget and are searched, as many as there are, at most three and at most max(2k, k) |
| PlanSearch.SearchQuery | core/features/retrieval/dual_route_retriever.py:461-465 | sorting, gate and cut leave the best admitted candidates; one without evidence takes no place from another, and the list is short only when no more are admitted |
| PlanSearch.SearchStaysWithinBudget | core/features/retrieval/dual_route_retriever.py:393-465 | the cut lists together hold at most max(2k, k) candidates |
| PlanSearch.SearchWithPlan | core/features/retrieval/dual_route_retriever.py:393-471 | every document among the best of its query is in the fused list exactly once, in the ranking's order |
| PlanSearch.ListIsExactly | core/features/retrieval/dual_route_retriever.py:461-465 | the list of a query: better scores first, then smaller identifiers; only admitted candidates, and none left out that is better than a kept one or finds room |
| PlanSearch.SearchIsBounded | core/features/retrieval/dual_route_retriever.py:393-409 | how many queries are searched for any k, and at most 2k candidates together |
| MultiQueryFusion.Accumulate | core/features/retrieval/multi_query_fusion.py:60-75 | the dictionaries hold reciprocal sums, appearance masks, best ranks and first occurrences; fails exactly on a zero denominator |
| MultiQueryFusion.AddHitDescribes | core/features/retrieval/multi_query_fusion.py:62-75 | one more hit keeps the dictionaries described by the lists read so far, the popcount of the mask being the number of lists |
| MultiQueryFusion.FuseQueryResults | core/features/retrieval/multi_query_fusion.py:29-113 | the fused list is the requested prefix of the ranking of all distinct documents, with the support and score that FusedIsExactly spells out, or the denominator is zero |
| MultiQueryFusion.FusedIsExactly | core/features/retrieval/multi_query_fusion.py:76-113 | a fused result has support 0, 0.04 or 0.08 by the number of lists that hold it, and a score that is a multiple of 0.000001 within half of that from the reciprocal sum plus this support, ties to even |
| MultiQueryFusion.ScoreLaws | core/features/retrieval/multi_query_fusion.py:60-66 | the sum of a document gains the reciprocal of constant plus rank plus one at each of its hits and nothing at another one |
| MultiQueryFusion.RankingOrder | core/features/retrieval/multi_query_fusion.py:83-87 | of any two places the earlier has the higher score, then the better best rank, then the smaller identifier |
| MultiQueryFusion.PrefixLength | core/features/retrieval/multi_query_fusion.py:88 | how much of the ranking a limit keeps, a negative one included |
| MultiQueryFusion.RankingIsUnique | core/features/retrieval/multi_query_fusion.py:83-87 | the lists determine the ranking: its order, scores and best ranks |
| MultiQueryFusion.DominantPrecedes | core/features/retrieval/multi_query_fusion.py:60-87 | a document that outranks another in every list where the other appears precedes it, for constants of zero or more |
| MultiQueryFusion.DominatedDividesByZero | core/features/retrieval/multi_query_fusion.py:63 | with a constant of -1 or -2 lists that hold a dominated document divide by zero |
| MultiQueryFusion.DominanceFailsBelow | core/features/retrieval/multi_query_fusion.py:60-87 | for every constant below -2 there are lists where dominance fails |
| MultiQueryFusion.Round6Monotone | core/features/retrieval/multi_query_fusion.py:80-81 | rounding half to even at six decimals never reverses an order |
| MultiQueryFusion.FullLimitKeepsAll | core/features/retrieval/dual_route_retriever.py:467-471 | with the total length as limit every distinct document is returned exactly once |
| GraphKeyword.HitMerger.Add | core/features/retrieval/graph_keyword_retriever.py:197-244 | one hit merged in place |
| GraphKeyword.MergeRoutes | core/features/retrieval/graph_keyword_retriever.py:246-260 | the five loops in their order, the stable sort and the cut |
| GraphKeyword.TagsAreExactly | core/features/retrieval/graph_keyword_retriever.py:246-258 | which weight, source and distance the hits of the five lists carry, and in which order they are merged |
| GraphKeyword.ResultIsExactly | core/features/retrieval/graph_keyword_retriever.py:217-244 | every surviving result is made by one of its hits: its content, its sources from there on, and its weight plus 0.35 of all later ones, none of which outweighed what was gathered |
| GraphKeyword.SurvivesIffOneBoundary | core/features/retrieval/graph_keyword_retriever.py:205-216 | a document survives exactly when its effective boundaries are one, which it then carries |
| GraphKeyword.OrderDoesNotMatter | core/features/retrieval/graph_keyword_retriever.py:197-228 | survival, boundary and smallest known distance are the same for every order of the hits |
| GraphKeyword.ScoreBounds | core/features/retrieval/graph_keyword_retriever.py:217-240 | a score lies between the best weighted hit and that plus 0.35 of the rest, at most one |
| GraphKeyword.BestFirstAttainsUpper | core/features/retrieval/graph_keyword_retriever.py:229-240 | with the best hit first the upper bound is reached |
| GraphKeyword.ScoreReachesBoundIff | core/features/retrieval/graph_keyword_retriever.py:229-240 | the upper bound is reached when the first accepted hit of positive weight is one of the best, and below the cap only then |
| GraphKeyword.OrderShowsIff | core/features/retrieval/graph_keyword_retriever.py:229-240 | below the cap some order of the hits changes the score exactly when the positive accepted weights are not all equal |
| GraphKeyword.EvenWeightsHideOrder | core/features/retrieval/graph_keyword_retriever.py:229-240 | with equal positive weights every order gives the upper bound, at the cap too |
| GraphKeyword.FullWeightHidesOrder | core/features/retrieval/graph_keyword_retriever.py:229-240 | a hit of full weight makes the score one in every order |
| GraphKeyword.ScoreDependsOnOrder | core/features/retrieval/graph_keyword_retriever.py:229-240 | two hits whose order changes the score |
| GraphKeyword.RankedSurvivors | core/features/retrieval/graph_keyword_retriever.py:259-260 | the ranking lists exactly the survivors, each once, best score first |
| GraphKeyword.RankedTies | core/features/retrieval/graph_keyword_retriever.py:259-260 | documents of equal score stand in the order of their first accepted hits |
| GraphVector.DeleteLoop | core/features/retrieval/graph_vector_retriever.py:333-375 | ends for any backend that shows finitely many identifiers in the stores the loop can reach; every round deletes deletable matches never deleted before; each outcome is explained by the last fetch or the last reply |
| GraphVector.DeleteRound | core/features/retrieval/graph_vector_retriever.py:370-375 | deletes in order and stops at the first reply that is no deletion |
| GraphVector.DeleteMatchingEntries | core/features/retrieval/graph_vector_retriever.py:317-375 | the capability checks and then the loop |
| GraphVector.OnlyMatchesAreDeleted | core/features/retrieval/graph_vector_retriever.py:344-363 | whatever the outcome, a document deleted in a full round or in the stopped one names the source in its own metadata, and the boundary if one is given |
| GraphVector.MatchIsExactly | core/features/retrieval/graph_vector_retriever.py:344-363 | a match names the source in its own metadata and, when a boundary is given, carries its three fields, which must be proper |
| GraphVector.RoundInOrder | core/features/retrieval/graph_vector_retriever.py:341-370 | matches and deletable documents keep the order in which the backend shows them |
| GraphVector.FaithfulRun | core/features/retrieval/graph_vector_retriever.py:335-375 | over a faithful backend the rounds remove exactly as many documents as they count and keep all others |
| GraphVector.NormalReturnIsComplete | core/features/retrieval/graph_vector_retriever.py:335-357 | over a faithful backend a normal return leaves exactly the documents that do not match, and counts the removed ones |
| GraphVector.PlainStoreIsFaithful | core/features/retrieval/graph_vector_retriever.py:335-340 | the store that filters by metadata, shows the first 200 and deletes by identifier is faithful and always answers |
| GraphVector.FaithfulIsFinite | core/features/retrieval/graph_vector_retriever.py:333-375 | a faithful backend with distinct identifiers shows only those it started with, so the loop ends on it |
| GraphVector.ReturnsNormallyIff | core/features/retrieval/graph_vector_retriever.py:333-375 | over a faithful backend that answers, the loop returns a count exactly when every match has an identifier, and reports missing identifiers otherwise |
| GraphVector.DeleteEntriesForMemory | core/features/retrieval/graph_vector_retriever.py:299-375 | the whole deletion over a faithful backend that answers: exactly the matches go and are counted, or an identifier is missing |
| GraphVector.ValidateAll | core/features/retrieval/graph_vector_retriever.py:136-142 | all entries are checked, and accepted exactly when none contradicts the boundary |
| GraphVector.ReadIds | core/features/retrieval/graph_vector_retriever.py:167-176 | identifiers are read exactly when every one is an integer |
| GraphVector.InsertChunks | core/features/retrieval/graph_vector_retriever.py:157-178 | the chunks cover the entries in order, and identifier i is the reply for entry i; a failure is that of the last reply, all earlier ones being good |
| GraphVector.GoodOrExplained | core/features/retrieval/graph_vector_retriever.py:165-176 | a reply is a list of as many integers as entries, or exactly one error is the one raised for it |
| GraphVector.AddEntries | core/features/retrieval/graph_vector_retriever.py:127-178 | nothing is inserted unless every entry agrees with the boundary; on success one identifier per entry in order; a failure is explained by the last reply |
| GraphVector.EntryIsExactly | core/features/retrieval/graph_vector_retriever.py:127-150 | an entry is stored with its own metadata and the three fields of the boundary, and agrees with it exactly when it contradicts none of them |
| GraphVector.ChunksCover | core/features/retrieval/graph_vector_retriever.py:157-178 | the chunks of the calls joined are the first entries in order, all of them once enough calls are made |
| GraphVector.ChunksAreSmall | core/features/retrieval/graph_vector_retriever.py:156-164 | every chunk has between 1 and 200 entries and a request size of at most ten |
| GraphVector.RequestIsExactly | core/features/retrieval/graph_vector_retriever.py:160-164 | the request size of a call is the size of its chunk, ten at most |
| Provenance.ConstructIffValid | core/shared/domain_provenance.py:31-62 | the constructor accepts exactly the valid combinations |
| Provenance.ConstructErrors | core/shared/domain_provenance.py:31-62 | exactly when each error is given, the first failing check deciding |
| Provenance.Merge | core/shared/domain_provenance.py:108-139 | the loop over incoming sources computes the merge that the lemmas are about |
| Provenance.MergedMembers | core/shared/domain_provenance.py:122-138 | the merged sources are one per identifier, the latest one winning, in canonical order, with the first operand's primary as the only primary |
| Provenance.MergeDerived | core/shared/domain_provenance.py:122-139 | two derived origins merge exactly when they share a scope or the second replaces every source of the first |
| Provenance.MergeIsExactly | core/shared/domain_provenance.py:122-139 | a successful merge of two derived origins: primary of the first in front, the others by rising identifier; every source of the second is in it, and exactly those of the first that the second does not name |
| Provenance.MergeFailsIff | core/shared/domain_provenance.py:122-139 | it fails exactly when a source of the first that the second does not name lies in another scope than the second |
| Provenance.MergeIsValid | core/shared/domain_provenance.py:108-139 | the result is valid, or two scopes met |
| Provenance.AssociativeIff | core/shared/domain_provenance.py:108-139 | the two orders of merging three origins agree if and only if the order does not matter in the stated sense |
| Provenance.AssociativeInOneScope | core/shared/domain_provenance.py:108-139 | over one scope the merge is total and associative |
| Provenance.AssociativityFails | core/shared/domain_provenance.py:108-139 | three derived origins where only one order succeeds |
| Provenance.ManualAbsorbs | core/shared/domain_provenance.py:116-120 | a manual origin absorbs from either side |
| Provenance.MergeWithoutSources | core/shared/domain_provenance.py:108-120 | without an existing origin the incoming one is taken; a manual origin on either side gives the manual one |
| Provenance.IdempotentUpToOrder | core/shared/domain_provenance.py:122-139 | merging with itself only sorts, and once sorted changes nothing |
| Provenance.PrivacyOfMerge | core/shared/domain_provenance.py:70-79 | exactly when the merge is less private than its first operand; never less than its second |
| Provenance.StrictestIsExactly | core/shared/domain_provenance.py:70-79 | the level of sources is confidential when one is, else shared when one is, else public |
| MemoryLifecycle.Bm25Retriever.AddDocument | core/features/retrieval/bm25_retriever.py:186-210 | one row is appended if the insert took |
| MemoryLifecycle.Bm25Retriever.DeleteDocument | core/features/retrieval/bm25_retriever.py:329-356 | all rows of the document go if the delete took; exceptions answer false |
| MemoryLifecycle.Bm25Retriever.UpdateDocument | core/features/retrieval/bm25_retriever.py:358-404 | the rows are replaced by one row if the commit took; exceptions answer false |
| MemoryLifecycle.MemoryLifecycleManager.AddMemory | core/features/retrieval/memory_lifecycle.py:48-85 | vector and document first, then the row under the same identifier |
| MemoryLifecycle.MemoryLifecycleManager.UpdateContent | core/features/retrieval/memory_lifecycle.py:150-186 | the canonical text first, then the vector, then the row; a failed refresh of either does not change the answer |
| MemoryLifecycle.MemoryLifecycleManager.DeleteMemory | core/features/retrieval/memory_lifecycle.py:188-282 | the ordered deletions with the compensating step, for every way each call can end; the answer and what is left are those of DeleteAnswers and DeleteLeaves |
| MemoryLifecycle.MemoryLifecycleManager.RollbackBm25Delete | core/features/retrieval/memory_lifecycle.py:284-316 | the row is rebuilt from the backup, and skipped without a text; only the cancelled write is passed on |
| MemoryLifecycle.DeleteAnswers | core/features/retrieval/memory_lifecycle.py:188-316 | exactly when a deletion answers true, answers false, or passes a cancellation on, the one of the restoring write included |
| MemoryLifecycle.DeleteLeaves | core/features/retrieval/memory_lifecycle.py:188-316 | the vector, the document and the rows of the memory after every way a deletion can end |
| MemoryLifecycle.DeletedRows | core/features/retrieval/memory_lifecycle.py:188-282 | what a deletion leaves of the rows, of this memory and of every other |
| MemoryLifecycle.TrueMeansGone | core/features/retrieval/memory_lifecycle.py:188-282 | exactly when a deletion answers true, the vector layer deciding as in vector_retriever.py:700-743; then rows and vector are gone, and exactly when the document outlives them |
| MemoryLifecycle.FalseMeansKept | core/features/retrieval/memory_lifecycle.py:225-259 | false means vector and document are intact and the rows untouched, rebuilt as one row, or lost, with the exact condition of the loss |
| MemoryLifecycle.CancellationLosesRows | core/features/retrieval/memory_lifecycle.py:239-259 | a cancelled vector deletion keeps the vector and loses the rows |
| MemoryLifecycle.RowBroughtBackIff | core/features/retrieval/memory_lifecycle.py:239-259 | exactly when a deletion gives a row to a memory that had neither vector nor row |
| MemoryLifecycle.AddOutcome | core/features/retrieval/memory_lifecycle.py:77-85 | what is stored after each way an add can end |
| MemoryLifecycle.UpdateOutcome | core/features/retrieval/memory_lifecycle.py:150-186 | exactly when an update answers true, the vector refresh ending as in vector_retriever.py:605-698, and what documents, vectors and rows hold then and after a false answer |
| MemoryLifecycle.UpdateAnswers | core/features/retrieval/memory_lifecycle.py:150-186 | exactly when an update answers false or passes a cancellation on, and the document, vector and rows it leaves |
| MemoryLifecycle.RunKeepsInv | core/features/retrieval/memory_lifecycle.py:48-316 | over any run, however calls end, every row belongs to a stored document and no document has two |
| MemoryLifecycle.OthersUntouched | core/features/retrieval/memory_lifecycle.py:48-316 | an operation leaves every other memory as it was |
| MemoryLifecycle.AgreementKeptIff | core/features/retrieval/memory_lifecycle.py:48-316 | the stores keep agreeing on a memory exactly when the outcome is not one of the breaking ones |
| MemoryLifecycle.RunKeepsAgreement | core/features/retrieval/memory_lifecycle.py:48-316 | when no operation on a memory has a breaking outcome the stores agree on it after any run, whatever happens to other memories |
| Mmr.FindBest | core/shared/mmr.py:56-73 | the earliest candidate of largest value above -1, or none when no value is above |
| Mmr.ApplyMmr | core/shared/mmr.py:26-77 | short inputs are returned as they are; otherwise a greedy choice of at most k by score and share of common words, as PicksOutweigh spells out, shorter only when nothing left beats the start value |
| Mmr.SimilarityIsShare | core/shared/mmr.py:62-67 | the similarity to the selected items times the number of all words is the number of common words for one of them, and no less for every one |
| Mmr.PicksOutweigh | core/shared/mmr.py:56-73 | lambda times score less (1 - lambda) times the largest share of common words is more than -1 for every pick, and no larger for anything picked later or never |
| Mmr.PickIsEarliest | core/shared/mmr.py:56-75 | among what was left, in input order, everything before a pick weighs strictly less |
| Mmr.StopsOnlyBelow | core/shared/mmr.py:57-73 | where the choice stops early, everything left weighs -1 or less |
| Mmr.GreedyIsSubset | core/shared/mmr.py:47-77 | chosen and left items together are the input, and the first result comes first |
| Mmr.PicksAreBest | core/shared/mmr.py:56-73 | each later pick is at least as good as everything chosen after it or never |
| Mmr.GreedyUnique | core/shared/mmr.py:50-77 | the greedy choice of a length is determined by the input |
| Mmr.SmallerIsPrefix | core/shared/mmr.py:50-77 | a smaller choice is a prefix of a larger one |
| Mmr.CutIsFull | core/shared/mmr.py:50-77 | with non-negative scores and 0 < lambda <= 1 exactly k are returned |
| Mmr.DiversityCount | core/shared/mmr.py:56-75 | with lambda = 0 the chosen word sets differ, as many as there are different ones, up to k |
| Mmr.RelevanceIsTopK | core/shared/mmr.py:56-73 | with lambda = 1 descending scores above -1 give the top-k prefix |
| Mmr.MaxSimilarityRange | core/shared/mmr.py:62-66 | similarities lie in [0, 1] and reach 1 exactly for an equal word set |
| Rollout.ControlSnapshot | scripts/gradual_rollout.py:274-312 | the bucket loop computes the normalized snapshot or refuses |
| Rollout.SnapshotIdempotent | scripts/gradual_rollout.py:274-312 | normalizing twice changes nothing |
| Rollout.SnapshotIsExactly | scripts/gradual_rollout.py:274-312 | which snapshots are read, and the mode and K of every bucket in a read one |
| Rollout.ExtractBucketResults | scripts/gradual_rollout.py:110-154 | accepts exactly the reports not marked as validation only whose rows are well formed and have different keys; otherwise the first wrong row, with the right error |
| Rollout.WrongIsExactly | scripts/gradual_rollout.py:121-151 | which error a row gives: key and decision before a repeated key, a repeated key before the counts |
| Rollout.BuildRecommendation | scripts/gradual_rollout.py:183-233 | every bucket with a commonly accepted K is enabled with the least one, the threshold is the least of its buckets, the samples add up |
| Rollout.ThresholdIsExactly | scripts/gradual_rollout.py:36-43 | the threshold is 3, 10 or 30 for tiny, small or medium when such a bucket is chosen, and 100 when only larger ones are |
| Rollout.SamplesAddUp | scripts/gradual_rollout.py:205-228 | the four sample counts add up over the two chat types and over the buckets |
| Rollout.CommonAcceptedRows | scripts/gradual_rollout.py:187-209 | a K is commonly accepted exactly when a row of each chat type says so |
| Rollout.RolloutSnapshot | scripts/gradual_rollout.py:315-328 | the override loop computes the target snapshot |
| Rollout.RolloutEffect | scripts/gradual_rollout.py:315-328 | enabled buckets run with their K, all others observe |
| Rollout.AppliedIsExactly | scripts/gradual_rollout.py:315-328 | what an apply writes: the global mode observes, chosen buckets use their K, the others observe, and all else stays |
| Rollout.AcceptedIffFits | core/features/reflection/domain/config.py:132-151 | a valid configuration accepts a recommendation exactly when threshold and every K fit its topic limit |
| Rollout.LargeBucketsAreRefused | scripts/gradual_rollout.py:36-43 | a recommendation for large buckets alone is never accepted |
| Rollout.Recommend | scripts/gradual_rollout.py:487-492 | from a report to its recommendation: there is one exactly when rows of both chat types accept some K for some bucket |
| Rollout.ReportIsAcceptedIff | scripts/gradual_rollout.py:487-492 | a valid configuration accepts the recommendation of a report exactly when it fits, and never when the report supports large buckets only |
| Rollout.ConfigManager.ApplyConfigChanges | core/platform/config/manager.py:482-543 | compare, validate, save and read back, for every way saving can end |
| Rollout.ChangedFacts | core/platform/config/manager.py:490-543 | an own write replaces exactly the expected content, a refused one changes nothing, and a conflict leaves another writer's content |
| Rollout.ChangedIsExactly | core/platform/config/manager.py:490-543 | exactly when each reply is given, and the last content, for every way saving can end |
| Rollout.ControlPlane.WriteAuditEntry | core/platform/config/audit.py:181-192 | a line is appended, possibly although the write raises |
| Rollout.ControlPlane.ApplyRecommendation | scripts/gradual_rollout.py:356-404 | the steps of an apply with other writers between any two of them |
| Rollout.ApplyEnds | scripts/gradual_rollout.py:356-404 | exactly when an apply ends in each of its outcomes |
| Rollout.ControlPlane.RollbackEntry | scripts/gradual_rollout.py:407-458 | the steps of a rollback with other writers between any two of them |
| Rollout.RollbackEnds | scripts/gradual_rollout.py:407-458 | exactly when a rollback of a true entry ends in each of its outcomes |
| Rollout.ApplyIsAudited | scripts/gradual_rollout.py:366-404 | a successful apply logs one entry, with its identifier and samples, that truly describes a step of the configuration's history |
| Rollout.AuditFailureIsRepaired | scripts/gradual_rollout.py:388-403 | how an apply ends whose change took and whose audit write failed: the outcome, the last content, and exactly when the fallback is in force |
| Rollout.UnauditedChangeStaysIff | scripts/gradual_rollout.py:366-403 | for every write that gets as far as saving, exactly when the applied content is in force with no entry in the log; a cancelled save is one case, and then nothing else is tried |
| Rollout.RollbackAuditFailure | scripts/gradual_rollout.py:442-457 | how a rollback ends whose own audit write failed: the outcome, the last content, and when undoing it restores the content it found |
| Rollout.UnauditedRollbackStaysIff | scripts/gradual_rollout.py:422-457 | the same for the content that a rollback restores |
| Rollout.FallbackIsConservative | scripts/gradual_rollout.py:331-342 | in the fallback every bucket and the global setting are in the fallback mode |
| Rollout.FallbackIsExactly | scripts/gradual_rollout.py:331-342 | what the fallback writes: one mode everywhere, no K, the threshold of the change it replaces |
| Rollout.FallbackIsAccepted | scripts/gradual_rollout.py:331-342 | validation never refuses the fallback of an accepted change |
| Rollout.RollbackRestores | scripts/gradual_rollout.py:413-458 | a successful rollback replaces exactly the content its entry left and writes the recorded normalized snapshot |
| Rollout.RollbackYieldsToOthers | scripts/gradual_rollout.py:418-426 | a rollback that meets another content writes nothing |
| Rollout.RestoredIsAccepted | scripts/gradual_rollout.py:415-426 | validation never refuses the restored content |
| Rollout.RoundTripIff | scripts/gradual_rollout.py:293-312 | apply and rollback give the old configuration back exactly when it had an override for every bucket |
| Rollout.EffectRestoredIff | core/features/reflection/domain/config.py:189-208 | exactly when the effective setting of a bucket comes back |
| Rollout.LogStaysTrue | scripts/gradual_rollout.py:356-458 | over any run of applies, rollbacks and other writers every log entry describes a real step |
| DualRoute.AggregateAtomEvidence | core/features/retrieval/dual_route_retriever.py:624-646 | evidence and atom identifiers of exactly the parents that a counted atom names |
| DualRoute.AtomsAreExactly | core/features/retrieval/dual_route_retriever.py:624-640 | the scores and identifiers of a parent, one atom at a time: positive identifiers only, scores cut to [0, 1] |
| DualRoute.EvidenceFormula | core/features/retrieval/dual_route_retriever.py:641-645 | best score plus a twentieth of the rest, at most 0.15 more, at most one |
| DualRoute.EvidenceIsExactly | core/features/retrieval/dual_route_retriever.py:641-645 | best score plus the lesser of 0.15 and a twentieth of the others, at most one |
| DualRoute.EvidenceIgnoresOrder | core/features/retrieval/dual_route_retriever.py:632-645 | the order of the hits does not show |
| DualRoute.EvidenceRange | core/features/retrieval/dual_route_retriever.py:637-645 | evidence lies between the best score and that plus 0.15, within [0, 1] |
| DualRoute.AddedAtomKeepsEvidence | core/features/retrieval/dual_route_retriever.py:632-645 | another atom never lowers the evidence of its parent |
| DualRoute.HigherScoreMoreEvidence | core/features/retrieval/dual_route_retriever.py:642-645 | a raised score in the list of a parent never lowers its evidence |
| DualRoute.RaisedAtomKeepsEvidence | core/features/retrieval/dual_route_retriever.py:624-646 | raising the score of one atom never lowers the evidence of any parent |
| DualRoute.KeywordWeights | core/features/retrieval/dual_route_fusion.py:224-250 | the keyword-chosen weights sum to one, document in [0.15, 0.9], graph in [0.1, 0.85], for any base weights |
| DualRoute.ShiftIsExactly | core/features/retrieval/dual_route_fusion.py:229-241 | how far relation, temporal and factual words shift the weights, for every combination |
| DualRoute.ShiftIsMonotone | core/features/retrieval/dual_route_fusion.py:229-250 | keywords that shift less towards documents never give documents more weight |
| DualRoute.MergeDualResults | core/features/retrieval/dual_route_fusion.py:66-105 | every found and available document once, by falling score and rising identifier |
| DualRoute.MergeIsUnique | core/features/retrieval/dual_route_fusion.py:75-105 | the result does not depend on the order in which a set is enumerated |
| DualRoute.MergeIsExactly | core/features/retrieval/dual_route_fusion.py:66-105 | which documents are listed, with which score, and in which order |
| DualRoute.SignalIsExactly | core/features/retrieval/dual_route_fusion.py:348-360 | a route signal is the score of the last hit over the largest one, or the score itself when that is zero |
| DualRoute.ScoreIsExactly | core/features/retrieval/dual_route_fusion.py:348-381 | the atom weight cut to [0, 0.5] and taken from the other two routes, plus the bonus for both, at most one |
| DualRoute.ScoreRange | core/features/retrieval/dual_route_fusion.py:348-381 | fused scores stay in [0, 1] for non-negative scores, weights and bonus |
| DualRoute.OnlyBonusIsCut | core/features/retrieval/dual_route_fusion.py:375-381 | with weights that sum to one only the cross-route bonus can be cut off |
| DualRoute.DominanceInScore | core/features/retrieval/dual_route_fusion.py:348-381 | a document at least as good on every route scores at least as high |
| DualRoute.DocumentRouteKeepsOrder | core/features/retrieval/dual_route_fusion.py:348-381 | when only the document route finds anything its own order is the fused order, for any positive weight up to one |
| DualRoute.AtomsKeepOrder | core/features/retrieval/dual_route_fusion.py:66-71 | between documents with the same atom signal and bonus the atom route never changes the order, whatever its weight |
| MemoryStatus.NormalizersAgree | core/shared/memory_status.py:32-39 | trimming and lowering in SQL equals stripping and translating in Python on every text |
| MemoryStatus.NormalizedIsExactly | core/shared/memory_status.py:32-39 | exactly the blanks around a text go and exactly its ASCII capitals are lowered |
| MemoryStatus.NamesAreExactly | core/shared/sql.py:34-62 | which texts name which status |
| MemoryStatus.JsonLoads | core/shared/sql.py:19-25 | the parsed dictionary holds for every key its last member |
| MemoryStatus.LastValueIsExactly | core/shared/sql.py:29-56 | of several members with one key both readers take the last |
| MemoryStatus.EffectiveMemoryStatus | core/shared/memory_status.py:42-77 | the loop over the two fields computes the effective status |
| MemoryStatus.StatusOfDocument | core/shared/sql.py:26-76 | parsing and reading in Python gives what the SQL expression selects, for every stored metadata |
| MemoryStatus.SqlStatusIsExactly | core/shared/sql.py:26-76 | the first field that reads decides; with fields that do not read the status is unknown, with none it is active |
| MemoryStatus.UnreadableIsUnknown | core/shared/sql.py:67-73 | with a status field present the status is unknown exactly when no field is a readable text |
| MemoryStatus.MetadataStore.SetMemoryStatus | core/shared/memory_status.py:114-142 | both fields and the time are written, or nothing, with the exact errors |
| MemoryStatus.WrittenIsExactly | core/shared/memory_status.py:131-142 | both fields hold the name and the time is stored; every other member stays |
| MemoryStatus.WritableIsExactly | core/shared/memory_status.py:114-130 | only the four names can be written, after normalization |
| MemoryStatus.WrittenStatusIsRead | core/shared/memory_status.py:131-142 | a written status is read back by both readers from every document holding it |

## Left out

- The AstrBot hooks, plugin start and stop, logging, debug events and timing sinks: plumbing.
- Real SQLite, FAISS, tokenizers, embedding and language models: their answers are parameters.
- The `cachetools` caches, `async_cached`, key functions and hit rates of the cache manager.
- TtlCache.CachedFunction.Call: assumes that the clock does not run backwards between the membership test and the read.
- LlmBudget.ExtraLlmBudget.Reserve: feature texts are already normalized to the fixed list, and reason codes are an enumeration.
- The observer callback of the budget and denials recorded by features: they change no count.
- `json.loads`, the regular-expression stages of the repair and the removal of thinking tags.
- MultiQueryFusion.FuseQueryResults: the merging of score breakdowns and the copied metadata are one opaque content.
- GraphKeyword.HitMerger.Add: the merged metadata is the list of match sources; malformed hits that cannot be converted are not modelled.
- GraphKeyword.OrderShowsIff: says nothing at the cap with all weights below one, where it is a subset-sum question whether some order stays below one; there only even weights are shown to hide the order.
- PlanSearch.SearchWithPlan: what a query retrieves and merges is a function of the query and its budget; failing or cancelled searches, personalized ranking, evidence scores and derived expansion are left out.
- GraphVector.AddEntries: batch sizes given as booleans or fractions, and backends that change the list they are given.
- GraphVector.DeleteLoop: document identifiers are strings; two different raw identifiers with one text form are not told apart.
- GraphVector.OnlyMatchesAreDeleted: a boundary with blanks beyond the four ASCII ones is not told from a proper one.
- The vector search, metadata updates and single-entry operations of the graph vector store.
- Provenance.Merge: revision tokens are integers; they never decide the order, as identifiers are distinct.
- The dictionary form of a provenance and its dates.
- MemoryLifecycle.MemoryLifecycleManager.DeleteMemory: a failed vector deletion is taken to change nothing; whether the vector layer still has the UUID of a missing document cached is part of its reply.
- MemoryLifecycle.MemoryLifecycleManager.UpdateContent: a text is blank when it has only ASCII blanks; AstrBot's own full-text rows are not part of this model.
- MemoryLifecycle.MemoryLifecycleManager.AddMemory: a failed insert is taken to write nothing; the default metadata is not modelled.
- The metadata of a memory, its revision checks and the search with its score normalization in the full-text retriever.
- Mmr.ApplyMmr: lower-casing and splitting of texts; an item carries its set of words.
- Rollout.ControlPlane.ApplyRecommendation: operators, reasons, report hashes, time stamps and the list of changed buckets are not in the entry; entries written by others are not in the log.
- Rollout.ConfigManager.ApplyConfigChanges: the remaining configuration is one opaque field, and the schema check of change paths is not modelled.
- The command line, report loading and listing of audit entries.
- The branches of the route weights that a language model's intent or a fixed setting chooses, and the strategy table: they are constants or not normalized.
- DualRoute.MergeDualResults: loading of missing memories is a set of loadable identifiers; breakdown and copied fields are left out.
- MemoryStatus.EffectiveMemoryStatus: the default is a status; an arbitrary default text is not modelled.
- MemoryStatus.StatusOfDocument: metadata on which the two parsers disagree, and texts with a NUL character, are not modelled.
- Visibility intervals, version comparison, number clamping, dashboards, packaging and benchmarks: easy or input and output only.
