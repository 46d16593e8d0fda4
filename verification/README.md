# Callback lists, selectors, events and the arc allocator: models and proofs

This project models the parts of a web-archive indexing system that carry state, and proves
what they keep. There are two halves.

**jQuery 1.8.3, as bundled with the Archon web application.**

- *Selectors.* `Dom`, `Matcher`, `Selector`, `Combinators`, `Searches` and `Sizzle` model the
  selector compiler: the closures it builds as a datatype, the meaning of a selector as the
  existence of an assignment of nodes, and the evaluation with memo marks on the nodes as a class.
  The main result is `Sizzle.Engine.Query`. `ChildFilter` is the one filter that computes,
  `SetMatcher` and `Positional` are the positional pseudos with their two synchronised arrays,
  `SuperMatcher` merges their matches with those of the other selectors of a group, and
  `DocumentOrder`, `SortOrder` and `UniqueSort` are the sorting of results.
- *Callbacks.* `Callbacks` is `jQuery.Callbacks` as a step machine in which callbacks call back into
  the list; `CallbackProofs` and `CallbackTrace` prove what a pass and a run call, `CallbackEmpty`
  what is left of that when callbacks empty the list, `CallbackContents` what the list holds after
  each call and so who is called later, and `CallbackList` is the object itself, proved equal to the
  machine. `Deferred`, `DeferredLists`, `DeferredProofs`, `DeferredProgress`, `DeferredObject` and
  `When` build on it as the source does.
- *Events.* `Events` has the arrays of an element's handlers, with delegates in front, which add and
  remove change in place, and the dispatch that builds its queue from such an array; `EventRules`
  says which handlers are removed, queued and called.

**The Archon job store and the Arctika index builder.**

- `ArcPath` and `Archon` define the table, the per-shard caches and every call as a function on
  them; `ArchonSafety`, `ArchonHandOuts`, `ArchonReplies`, `ArchonQueue` and `ArchonDrain` prove
  what runs of calls hand out, `ArchonCalls` what each other call offers to whom, `ArchonRelocation`
  what goes wrong when a cached arc is moved; `ArchonStorage` is the class whose methods are proved
  equal to the functions.
- `IndexWorker`, `LineVerdicts` and `TaskReports` are a worker's run, how its output is read, and
  what is reported of it; `Retries` and `WorkerChain` are the chain of runs; `IndexBuilder` is the
  whole builder composed with the store, `BuilderProofs` what every build keeps, `BuilderControl`
  why it goes on or ends, and `BuilderStranding` what it leaves behind.

`Wrappers`, `Runs` and `Filters` hold what several modules share.

## Conventions

- The database is a map from file id to row. What a reload of a cache returns is a parameter
  constrained by `Archon.IsAnswer`: any list that the query may return, with null shard ids last (as
  the comment in the query says) and ties in any order. The limit 1000 is any k >= 1.
- Paths are kept split into folder and file id; `ArcPath` proves that this loses nothing. The
  methods of `ArchonStorage.Storage` take text.
- Each call on the store, and each end of a worker's run, is one atomic step.
- Callbacks and event handlers are given by what they do: a script of calls and returns, or the
  reaction and the edits of the k-th call. The end of a script is an arbitrary point of a run.
- `History` in `Callbacks`, `statuses` in `When` and `attached` in `Events` record the past for the
  statements; the code's own variables do not depend on them.

## What the code does not keep

Each of these is a lemma with the inputs for which it happens, or an exact condition.

- An addARC or addOrUpdateARC that succeeds and puts a cached arc at another path makes it possible
  that the arc is handed out twice, and no other call does (`ArchonRelocation.GoesOutTwiceIff`, over
  runs `ArchonRelocation.RunGoesOutTwiceIff`). addOrUpdateARC does so directly
  (`ArchonRelocation.MoveIsReached`), addARC after removeARC
  (`ArchonRelocation.RemoveThenAddIsReached`).
- Cached rows stay eligible unless a call disturbs one (`ArchonReplies.ApplyKeepsFreshIff`), and a
  priority set for a cached arc is overwritten (`ArchonReplies.CachedPriorityWins`).
- The reply "" means that nothing is left unless a row with the empty path is next in line
  (`ArchonReplies.EmptyReplyIff`, `ArchonDrain.DrainEndsEarlyIff`; the instance is
  `ArchonReplies.EmptyPathReadsAsNothingLeft`).
- A batch that Archon cannot fill, or that meets a missing file, is not submitted, and its arcs stay
  RUNNING: `BuilderStranding.StrandsIff` says when, `BuilderStranding.DrawStrands` how many,
  `BuilderStranding.OneRowIsStranded` is a whole build.
- Output lines are matched by substring, and so the verdicts depend on names that are part of other
  lines (`LineVerdicts.OwnVerdictsIff`, `LineVerdicts.FailedArcIsCompleted`).
- `empty` during a pass takes the turn of every callback still ahead.  It makes the list call
  undefined exactly in the cases of `CallbackEmpty.EmptyFaultsIff` (an instance is
  `CallbackEmpty.EmptyFaultIsReached`), and where it does not, callbacks added afterwards may be
  passed over without a fault: which ones is said by `CallbackEmpty.PassCallsAllButLost`, an
  instance is `CallbackEmpty.AddAfterEmptyIsPassedOver`.
- A leading positional pseudo filters the results of earlier selectors of its group once more
  (`Positional.EarlierResultsStayIff`, an instance is `SuperMatcher.EarlierMatchIsLost`).
- Nodes of different trees are not ordered (`SortOrder.AntisymmetricIff`).
- A delegated selector such as `constructor` is found in the table of answers before it was ever
  looked up, and its handler runs for every node (`Events.QueueIsPlainIff`,
  `Events.ConstructorIsMisread`).

## Model

| member | source | states |
|---|---|---|
| `Selector.ReadsIffSelects` | `netarchive-archon/src/main/webapp/js/jquery-1.8.3.js:4926-4976` | reading the tokens right to left accepts a node exactly when some assignment of ancestors and siblings satisfies every compound and combinator of the selector (W3C Selectors Level 3, sections 8.1 to 8.3) |
| `Searches.SearchMeansRelated` | `netarchive-archon/src/main/webapp/js/jquery-1.8.3.js:4746-4796` | one unmemoised combinator search succeeds exactly when a node related by that combinator is accepted by the inner matcher |
| `Searches.ClosestIsParent` | `netarchive-archon/src/main/webapp/js/jquery-1.8.3.js:4751-4759` | the closest-node walk of `>` stops exactly at the parent |
| `Searches.ClosestIsAdjacent` | `netarchive-archon/src/main/webapp/js/jquery-1.8.3.js:4751-4759` | the closest-node walk of `+` stops exactly at the nearest preceding element |
| `Combinators.ChildMeans` | `netarchive-archon/src/main/webapp/js/jquery-1.8.3.js:4151-4154` | `x > y`, from the links of the document alone: x is the parent of y; a leading combinator also stops at a parent that is no element |
| `Combinators.DescendantMeans` | `netarchive-archon/src/main/webapp/js/jquery-1.8.3.js:4151-4154` | `x y`: one or more parents up from y is x, an element, or any node for a leading combinator |
| `Combinators.SiblingMeans` | `netarchive-archon/src/main/webapp/js/jquery-1.8.3.js:4151-4154` | `x ~ y`: one or more siblings back from y is the element x |
| `Combinators.AdjacentMeans` | `netarchive-archon/src/main/webapp/js/jquery-1.8.3.js:4151-4154` | `x + y`: the element x is siblings back from y with no element between them |
| `Combinators.CompoundMeans` | `netarchive-archon/src/main/webapp/js/jquery-1.8.3.js:4926-4941` | a single compound selects the nodes it accepts anywhere in the document, below the context node, or below one of several |
| `Combinators.LeadingMeans` | `netarchive-archon/src/main/webapp/js/jquery-1.8.3.js:4926-4941` | with a leading combinator, the nodes it accepts that this combinator relates to a context node |
| `Combinators.PairMeans` | `netarchive-archon/src/main/webapp/js/jquery-1.8.3.js:4960-4969` | two compounds select the nodes the right one accepts that are related to one the left one accepts |
| `Combinators.ParagraphInDiv` | `netarchive-archon/src/main/webapp/js/jquery-1.8.3.js:4151-4154` | in root > div > p, `div p` selects p and `div ~ p` does not |
| `Sizzle.Engine.Walk` | `netarchive-archon/src/main/webapp/js/jquery-1.8.3.js:4761-4786` | the memoised ancestor/sibling walk returns the truth value of the plain search, and keeps two invariants: a mark's `sizset` is the matcher's answer at that node, and a false mark of the present candidate means the walk from there fails |
| `Sizzle.Engine.XmlWalk` | `netarchive-archon/src/main/webapp/js/jquery-1.8.3.js:4787-4793` | the walk without marks returns the truth value of the plain search |
| `Sizzle.Engine.Match` | `netarchive-archon/src/main/webapp/js/jquery-1.8.3.js:4798-4810` | a compiled matcher, evaluated with marks, has the truth value it has without them |
| `Sizzle.Engine.MatcherFromTokens` | `netarchive-archon/src/main/webapp/js/jquery-1.8.3.js:4926-4976` | the matcher compiled from a token list accepts just the nodes the selector selects from its context |
| `Sizzle.Engine.Run` | `netarchive-archon/src/main/webapp/js/jquery-1.8.3.js:4999-5012` | over any sequence of candidates of one outermost run, the results are the candidates that some unmemoised matcher accepts, in order |
| `Sizzle.Engine.Query` | `netarchive-archon/src/main/webapp/js/jquery-1.8.3.js:4978-5073` | compiling a selector group and running it returns exactly the selected candidates, in order, whatever marks earlier runs left |
| `ChildFilter.NthChild` | `netarchive-archon/src/main/webapp/js/jquery-1.8.3.js:4293-4318` | `:nth-child(an+b)` accepts an element exactly when its position among its element siblings is a*n+b for some n >= 0 (W3C Selectors Level 3, section 6.6.5.2), for a and b of any sign |
| `ChildFilter.ElementsAreCounted` | `netarchive-archon/src/main/webapp/js/jquery-1.8.3.js:4293-4318` | the position that the loop counts is the number of elements up to the child |
| `ChildFilter.FitsIffNth` | `netarchive-archon/src/main/webapp/js/jquery-1.8.3.js:4315-4316` | the test by remainder and quotient is equivalent to the existence of such an n |
| `ChildFilter.EdgeChild` | `netarchive-archon/src/main/webapp/js/jquery-1.8.3.js:4320-4348` | the first/last/only filters accept an element exactly when no element sibling stands on the side(s) in question |
| `SetMatcher.MovesIff` | `netarchive-archon/src/main/webapp/js/jquery-1.8.3.js:4840-4908` | an element moves exactly when it passes the prefilter, the pseudo selects its index among the prefiltered elements, and it passes the postfilter |
| `SetMatcher.PostFiltersMatches` | `netarchive-archon/src/main/webapp/js/jquery-1.8.3.js:4840-4908` | a postfilter of any kind is given what the stage would match without it, and what it matches of that is matched |
| `SetMatcher.PositionsSplit` | `netarchive-archon/src/main/webapp/js/jquery-1.8.3.js:4517-4556` | :lt, :eq and :gt of one argument split the positions in this order, and negative arguments count from the end |
| `SetMatcher.EndsAndTurns` | `netarchive-archon/src/main/webapp/js/jquery-1.8.3.js:4517-4556` | :first and :last are the two ends, and :even and :odd alternate from the first position on |
| `Positional.Condense` | `netarchive-archon/src/main/webapp/js/jquery-1.8.3.js:4812-4832` | the condensed list holds the elements that pass, and the map their indices, in order |
| `Positional.MatchIndexes` | `netarchive-archon/src/main/webapp/js/jquery-1.8.3.js:4517-4556` | every positional pseudo names exactly the positions it stands for, counted from the end for negative arguments |
| `Positional.MatchPositions` | `netarchive-archon/src/main/webapp/js/jquery-1.8.3.js:3965-3981` | exactly the elements at the selected positions move to the same positions of the other array |
| `Positional.SetMatch` | `netarchive-archon/src/main/webapp/js/jquery-1.8.3.js:4834-4924` | what one call with a seed does to `seed` and `results`, also when it works on these arrays in place |
| `Positional.EmptyOutcome` | `netarchive-archon/src/main/webapp/js/jquery-1.8.3.js:4840-4908` | from empty results, every element stays in `seed` or moves to the same index of `results` |
| `Positional.EarlierResultsStayIff` | `netarchive-archon/src/main/webapp/js/jquery-1.8.3.js:4849-4882` | with earlier results and a leading positional pseudo the call moves what it should, and leaves the earlier results, exactly if all of these pass the postfilter |
| `SuperMatcher.SuperMatch` | `netarchive-archon/src/main/webapp/js/jquery-1.8.3.js:4978-5066` | called with a seed, a group with element and set matchers adds everything that either kind accepts to results in seed order, without sorting, and returns all else at its index |
| `SuperMatcher.Reintegrate` | `netarchive-archon/src/main/webapp/js/jquery-1.8.3.js:5035-5043` | the loop that takes element matches off the end of results again puts each at its own index |
| `SuperMatcher.OutcomeKeepsSplit` | `netarchive-archon/src/main/webapp/js/jquery-1.8.3.js:4834-4924` | whatever a set matcher matches, no element is lost, doubled or moved to another index |
| `SuperMatcher.OneSetMatcherDecides` | `netarchive-archon/src/main/webapp/js/jquery-1.8.3.js:5028-5033` | a group's single set matcher moves exactly what it matches among the elements that no element matcher accepts |
| `SuperMatcher.EarlierMatchIsLost` | `netarchive-archon/src/main/webapp/js/jquery-1.8.3.js:4849-4882` | the group `:eq(1).x, :first` over two elements, the first without the class: `:first` accepts the first element, and in every run of the two set matchers it is lost again |
| `SuperMatcher.LosesEarlierMatch` | `netarchive-archon/src/main/webapp/js/jquery-1.8.3.js:4978-5066` | the call of the superMatcher in which that happens |
| `DocumentOrder.BeforeIsPreorder` | `netarchive-archon/src/main/webapp/js/jquery-1.8.3.js:4590-4648` | the order on paths is the order in which a depth-first traversal visits the nodes of the tree |
| `SortOrder.SiblingCheck` | `netarchive-archon/src/main/webapp/js/jquery-1.8.3.js:4560-4576` | answers -1 exactly when the second node is a later sibling of the first |
| `SortOrder.Compare` | `netarchive-archon/src/main/webapp/js/jquery-1.8.3.js:4601-4648` | the fallback comparison equals document order, whether the nodes are siblings, ancestor and descendant, or part further up |
| `SortOrder.OrderIsDocumentOrder` | `netarchive-archon/src/main/webapp/js/jquery-1.8.3.js:4590-4648` | for nodes of one tree the comparison is the order of their visits in a traversal |
| `SortOrder.AntisymmetricIff` | `netarchive-archon/src/main/webapp/js/jquery-1.8.3.js:4608-4617` | the comparison is antisymmetric exactly for nodes of one tree, or if just one of the two is a root |
| `SortOrder.OrderIsTransitive` | `netarchive-archon/src/main/webapp/js/jquery-1.8.3.js:4590-4648` | the comparison is transitive within a tree |
| `UniqueSort.Sorter.CompareNodes` | `netarchive-archon/src/main/webapp/js/jquery-1.8.3.js:4590-4594` | the comparator, with its note about duplicates |
| `UniqueSort.Sorter.Sort` | `netarchive-archon/src/main/webapp/js/jquery-1.8.3.js:4662-4663` | insertion sort with that comparator; it notes a duplicate exactly if the list has one |
| `UniqueSort.Sorter.RemoveRepeats` | `netarchive-archon/src/main/webapp/js/jquery-1.8.3.js:4665-4674` | the two loops remove exactly the entries equal to their left neighbour |
| `UniqueSort.Sorter.UniqueSort` | `netarchive-archon/src/main/webapp/js/jquery-1.8.3.js:4656-4677` | the result has the same nodes, none twice, each tree's nodes in document order; the flag is set exactly if it was assumed or there were duplicates |
| `UniqueSort.OneTreeInDocumentOrder` | `netarchive-archon/src/main/webapp/js/jquery-1.8.3.js:4656-4677` | for nodes of one tree the result is the traversal of the tree cut down to the given nodes, so it does not depend on the sorting algorithm |
| `CallbackProofs.StepIsGood` | `netarchive-archon/src/main/webapp/js/jquery-1.8.3.js:966-1088` | every call and every return, also from inside callbacks, keeps the invariant of a firing pass, unless `empty` is called during it |
| `CallbackProofs.RunIsGood` | `netarchive-archon/src/main/webapp/js/jquery-1.8.3.js:941-1101` | the invariant holds in every state of every run |
| `CallbackTrace.PassCallsEachOnce` | `netarchive-archon/src/main/webapp/js/jquery-1.8.3.js:966-1045` | a completed pass has called, once each and in list order, exactly the entries that were in the list or were added and not removed before their turn |
| `CallbackTrace.FiringIndicesFit` | `netarchive-archon/src/main/webapp/js/jquery-1.8.3.js:1014-1041` | while firing, `firingLength` is the length of the list and `firingIndex` is in range |
| `CallbackEmpty.RunIsSound` | `netarchive-archon/src/main/webapp/js/jquery-1.8.3.js:966-1088` | in runs in which callbacks may also call `empty`, and up to a fault, every pass has called and has ahead of it exactly its pool without the entries removed early and those that lost their turn by `empty`, `disable`, `lock` or by being added at positions already passed |
| `CallbackEmpty.PassCallsAllButLost` | `netarchive-archon/src/main/webapp/js/jquery-1.8.3.js:966-1045` | in such runs, a pass that is not cut short has called exactly the rest of its pool, once each and in order |
| `CallbackEmpty.EmptyKeepsGoodIff` | `netarchive-archon/src/main/webapp/js/jquery-1.8.3.js:1051-1054` | `empty` during a pass keeps the invariant of passes exactly if the list is empty already |
| `CallbackEmpty.EmptyFaultsIff` | `netarchive-archon/src/main/webapp/js/jquery-1.8.3.js:966-1054` | a callback calls `empty` and then anything else: the next turn calls undefined exactly if the loop was not at its end at that `empty`, the callback did not stop it, and nothing was added and the list not disabled since |
| `CallbackEmpty.EmptyFaultIsReached` | `netarchive-archon/src/main/webapp/js/jquery-1.8.3.js:966-1054` | the concrete run: of two callbacks the first calls `empty` and returns, and the loop calls undefined |
| `CallbackEmpty.AloneIsReached` | `netarchive-archon/src/main/webapp/js/jquery-1.8.3.js:966-1088` | adding one callback to a new list and firing it leads to the state from which the next run starts |
| `CallbackEmpty.AddAfterEmptyIsPassedOver` | `netarchive-archon/src/main/webapp/js/jquery-1.8.3.js:1010-1054` | the concrete run: the only callback calls `empty` and adds another, nothing faults, and the other one is never called |
| `CallbackTrace.RunConcatenates` | `netarchive-archon/src/main/webapp/js/jquery-1.8.3.js:966-991` | the calls over a run are the passes one after the other, never interleaved |
| `CallbackTrace.RunServesInOrder` | `netarchive-archon/src/main/webapp/js/jquery-1.8.3.js:1077-1088` | on lists that are neither once nor locked nor emptied, the passes are those of the fires in the order they were issued |
| `CallbackTrace.LateAddReplays` | `netarchive-archon/src/main/webapp/js/jquery-1.8.3.js:1014-1022` | adding to a list with memory that is not firing starts one pass, with the remembered data, whose pool is exactly the added callbacks: all of them, or for unique lists those that were missing, once each |
| `CallbackContents.RemoveInRuns` | `netarchive-archon/src/main/webapp/js/jquery-1.8.3.js:1025-1045` | in every run, remove takes out every entry of its functions, whether or not the list fires, keeps all others with their tags and in order, and calls nothing |
| `CallbackContents.AddAppends` | `netarchive-archon/src/main/webapp/js/jquery-1.8.3.js:993-1023` | add, if it does not replay, puts all its functions behind the list, or for unique lists the missing ones, and calls nothing |
| `CallbackContents.FireCallsList` | `netarchive-archon/src/main/webapp/js/jquery-1.8.3.js:966-991` | fire on an idle list that accepts it starts one pass over the whole list, with its data; a list that may fire only once and has does nothing |
| `CallbackContents.ReturnCallsNext` | `netarchive-archon/src/main/webapp/js/jquery-1.8.3.js:966-991` | when a callback returns, the next one in the list is called with the same data |
| `CallbackContents.PassEndsLike` | `netarchive-archon/src/main/webapp/js/jquery-1.8.3.js:966-991` | when a pass ends, the list keeps its callbacks if it may fire again, keeps none but its data if it has memory, and is disabled otherwise; stopping a pass forgets the data |
| `CallbackContents.LockEndsFires` | `netarchive-archon/src/main/webapp/js/jquery-1.8.3.js:1060-1071` | a locked list takes no more fires, keeps its data, and is disabled if it has none |
| `CallbackContents.DisableEndsAll` | `netarchive-archon/src/main/webapp/js/jquery-1.8.3.js:1051-1063` | a disabled list takes neither callbacks nor fires |
| `CallbackContents.RemovedIsNotCalled` | `netarchive-archon/src/main/webapp/js/jquery-1.8.3.js:966-1045` | in every run, a function that was removed is not called until it is added again |
| `CallbackContents.EmptiedIsNotCalled` | `netarchive-archon/src/main/webapp/js/jquery-1.8.3.js:966-1063` | in every run, after `empty` or `disable` only callbacks added later are called |
| `CallbackContents.UniqueInRuns` | `netarchive-archon/src/main/webapp/js/jquery-1.8.3.js:993-1011` | in every run, a unique list has no function twice |
| `CallbackContents.EveryFireIsServed` | `netarchive-archon/src/main/webapp/js/jquery-1.8.3.js:1077-1088` | the passes served, the one in service and those queued are the fires of the run itself, in order |
| `CallbackTrace.RunLeavesIdle` | `netarchive-archon/src/main/webapp/js/jquery-1.8.3.js:966-1088` | in every state of every run, no fire waits in the queue of a list that is not firing, and a disabled list has no queue |
| `CallbackList.CallbackList.InArray` | `netarchive-archon/src/main/webapp/js/jquery-1.8.3.js:1030` | the index of the next occurrence, or -1 |
| `CallbackList.CallbackList.Push` | `netarchive-archon/src/main/webapp/js/jquery-1.8.3.js:999-1011` | add's loop over its arguments |
| `CallbackList.CallbackList.RemoveOne` | `netarchive-archon/src/main/webapp/js/jquery-1.8.3.js:1028-1042` | the splice loop patches the list and both firing indices as the specification says |
| `CallbackList.CallbackList.FirePass` | `netarchive-archon/src/main/webapp/js/jquery-1.8.3.js:966-991` | fire, with callbacks that call back into the list: equals the step machine |
| `CallbackList.CallbackList.Call` | `netarchive-archon/src/main/webapp/js/jquery-1.8.3.js:993-1098` | each method of the list equals its step, followed by the passes it starts |
| `CallbackList.CallbackList.Drive` | `netarchive-archon/src/main/webapp/js/jquery-1.8.3.js:941-1101` | a whole script of calls and returns leaves the state that the step machine computes |
| `DeferredProofs.StepKeepsInv` | `netarchive-archon/src/main/webapp/js/jquery-1.8.3.js:1104-1189` | every step keeps the invariant of a Deferred, and a settled one keeps its state |
| `DeferredProofs.SettleDecides` | `netarchive-archon/src/main/webapp/js/jquery-1.8.3.js:1164-1177` | the first settlement sets the state, disables the other list, locks progress and remembers its data |
| `DeferredProofs.SettledIgnoresFire` | `netarchive-archon/src/main/webapp/js/jquery-1.8.3.js:1174-1177` | later settlements change nothing |
| `DeferredProofs.PhaseIsFinal` | `netarchive-archon/src/main/webapp/js/jquery-1.8.3.js:1111-1115` | the state leaves "pending" at most once in a run |
| `DeferredProofs.CallbacksRunOnce` | `netarchive-archon/src/main/webapp/js/jquery-1.8.3.js:1104-1189` | callbacks of the settled side run once each, in attachment order, whether attached before, during or after; those of the other side never run |
| `DeferredProofs.IdsAreAttached` | `netarchive-archon/src/main/webapp/js/jquery-1.8.3.js:1161-1162` | the callbacks that statement speaks of are those attached by the steps of the run, in order |
| `DeferredProofs.ReturnRunsNext` | `netarchive-archon/src/main/webapp/js/jquery-1.8.3.js:966-991` | when a user callback returns, the next one that was attached runs, or all have run |
| `DeferredProgress.NotifiesInOrder` | `netarchive-archon/src/main/webapp/js/jquery-1.8.3.js:1104-1177` | while the Deferred is pending, its notifications are served in the order they were made, each by a pass of its own, and the rest is queued |
| `DeferredProgress.NotifyCallsAll` | `netarchive-archon/src/main/webapp/js/jquery-1.8.3.js:1174-1177` | a notification of an idle pending Deferred starts a pass over all progress callbacks with its data |
| `DeferredProgress.SettledIgnoresNotify` | `netarchive-archon/src/main/webapp/js/jquery-1.8.3.js:1164-1172` | once it is settled, notifications change nothing |
| `DeferredProgress.AttachedIsLast` | `netarchive-archon/src/main/webapp/js/jquery-1.8.3.js:1161-1162` | a progress callback attached before or during a notification goes behind the others |
| `DeferredProgress.AttachedLateIsCalled` | `netarchive-archon/src/main/webapp/js/jquery-1.8.3.js:1014-1022` | one attached after a notification is called at once with the data of the last one, even of a settled Deferred |
| `DeferredProofs.RunningSeesPhase` | `netarchive-archon/src/main/webapp/js/jquery-1.8.3.js:1164-1172` | a running user callback sees the state its side stands for |
| `DeferredObject.DeferredObject.constructor` | `netarchive-archon/src/main/webapp/js/jquery-1.8.3.js:1156-1180` | a new Deferred has its own three callbacks in front of both lists |
| `DeferredObject.DeferredObject.Attach` | `netarchive-archon/src/main/webapp/js/jquery-1.8.3.js:1161-1162` | done and fail: the step of the specification |
| `DeferredObject.DeferredObject.Settle` | `netarchive-archon/src/main/webapp/js/jquery-1.8.3.js:1164-1177` | resolve and reject, with the Deferred's own callbacks run first: the step of the specification |
| `DeferredObject.DeferredObject.Drive` | `netarchive-archon/src/main/webapp/js/jquery-1.8.3.js:1104-1189` | the object goes through every run that the specification allows, progress callbacks included |
| `When.ResolvedIffAllFulfilled` | `netarchive-archon/src/main/webapp/js/jquery-1.8.3.js:1192-1241` | in every order of settlements the master is resolved exactly when all arguments are fulfilled, and its done callbacks get each value at its own index |
| `When.FirstRejectionWins` | `netarchive-archon/src/main/webapp/js/jquery-1.8.3.js:1223-1228` | the first rejection heard rejects the master with its reason, for good |
| `When.RejectedIffAnyFailed` | `netarchive-archon/src/main/webapp/js/jquery-1.8.3.js:1223-1228` | the master is rejected exactly when an argument has failed |
| `When.StepKeepsInv` | `netarchive-archon/src/main/webapp/js/jquery-1.8.3.js:1204-1214` | every settlement and every use of the master's promise keeps the invariant of the closure |
| `When.EventIsHeard` | `netarchive-archon/src/main/webapp/js/jquery-1.8.3.js:1204-1228` | a settlement of one argument is recorded for that argument and for no other |
| `When.When` | `netarchive-archon/src/main/webapp/js/jquery-1.8.3.js:1192-1241` | the call of when, for any arguments: a single promise is returned itself, all others are gathered, and what is settled among them has been heard on return |
| `When.ArgumentsDecide` | `netarchive-archon/src/main/webapp/js/jquery-1.8.3.js:1192-1241` | on return of the call the master is resolved exactly if all arguments are plain values or fulfilled promises, with each value at its index, and rejected exactly if one is a rejected promise |
| `When.FirstFailureMeans` | `netarchive-archon/src/main/webapp/js/jquery-1.8.3.js:1223-1228` | the reason is that of the first rejected argument |
| `When.Gathering.constructor` | `netarchive-archon/src/main/webapp/js/jquery-1.8.3.js:1192-1241` | the loop over the arguments, some settled already, ends in a state of the invariant that has heard all of these |
| `When.Gathering.UpdateResolved` | `netarchive-archon/src/main/webapp/js/jquery-1.8.3.js:1204-1214` | the done callback of one argument |
| `When.Gathering.Reject` | `netarchive-archon/src/main/webapp/js/jquery-1.8.3.js:1227` | the fail callback of one argument |
| `Events.ElementEvents.Attach` | `netarchive-archon/src/main/webapp/js/jquery-1.8.3.js:2714-2744` | add puts the handler into the array of its type, in place, or into a new one; per type the handlers stay in the order they were attached |
| `Events.HandlerList.Insert` | `netarchive-archon/src/main/webapp/js/jquery-1.8.3.js:2738-2744` | the array's splice or push keeps its handlers arranged: in attachment order, delegates in front |
| `Events.HandlerList.Splice` | `netarchive-archon/src/main/webapp/js/jquery-1.8.3.js:2788-2805` | remove's loop splices the array in place: it removes exactly the handlers concerned and keeps the count of delegates |
| `Events.ElementEvents.Detach` | `netarchive-archon/src/main/webapp/js/jquery-1.8.3.js:2782-2816` | remove is a stable filter of the handlers in the order they were attached; an empty list goes |
| `Events.ElementEvents.Perform` | `netarchive-archon/src/main/webapp/js/jquery-1.8.3.js:2642-2826` | the same for any sequence of adds and removes |
| `Events.DelegatesAreInFront` | `netarchive-archon/src/main/webapp/js/jquery-1.8.3.js:2739-2744` | the first `delegateCount` handlers are exactly those with a selector |
| `Events.RemoveArranges` | `netarchive-archon/src/main/webapp/js/jquery-1.8.3.js:2788-2805` | removing handlers and keeping delegates in front do not disturb each other |
| `EventRules.RemoveLeaves` | `netarchive-archon/src/main/webapp/js/jquery-1.8.3.js:2788-2805` | remove leaves exactly the handlers of another type, of another function, without one of the namespaces, or with another selector, where `**` stands for any selector; other event types are not touched |
| `EventRules.RemoveKeepsOrder` | `netarchive-archon/src/main/webapp/js/jquery-1.8.3.js:2788-2805` | what is left keeps its order |
| `EventRules.OffTypeTakesAll` | `netarchive-archon/src/main/webapp/js/jquery-1.8.3.js:2788-2805` | a removal that names only the type takes all its handlers |
| `EventRules.OffDelegatesLeavesDirect` | `netarchive-archon/src/main/webapp/js/jquery-1.8.3.js:2788-2805` | a removal by the selector `**` takes exactly the delegated handlers |
| `EventRules.AddThenRemove` | `netarchive-archon/src/main/webapp/js/jquery-1.8.3.js:2642-2826` | attaching a handler and removing it by all it was attached with leaves exactly the handlers that differ from it in one of these |
| `EventRules.OffHandlerLeavesOther` | `netarchive-archon/src/main/webapp/js/jquery-1.8.3.js:2788-2805` | of two click handlers, removing the first by its function leaves the second |
| `Events.QueueIsPlainIff` | `netarchive-archon/src/main/webapp/js/jquery-1.8.3.js:3007-3040` | the queue is the one that looking every selector up would give, except exactly if a handler's selector names a property that every object inherits and fails to match a node that is not skipped |
| `Events.ConstructorIsMisread` | `netarchive-archon/src/main/webapp/js/jquery-1.8.3.js:3015-3029` | a handler delegated to `constructor` elements is queued for a node of any other kind |
| `Events.HandlerList.BuildQueue` | `netarchive-archon/src/main/webapp/js/jquery-1.8.3.js:3007-3040` | the queue holds, from the target outwards, the delegates listening at each node in attachment order, then the element's own handlers |
| `EventRules.QueuedIff` | `netarchive-archon/src/main/webapp/js/jquery-1.8.3.js:3007-3040` | a delegated handler is queued for a node on the path exactly if the click is of the left button and the node not disabled, or it is no click, and its selector matches the node or names an inherited property |
| `EventRules.DirectComeLast` | `netarchive-archon/src/main/webapp/js/jquery-1.8.3.js:3037-3040` | the element's own handlers are queued last, and all of them |
| `EventRules.GroupCallsExactly` | `netarchive-archon/src/main/webapp/js/jquery-1.8.3.js:3050-3053` | of a queued entry, a plain event calls every handler, an exclusive one those without namespaces, and a namespaced one those with all its names |
| `EventRules.CalledInAttachmentOrder` | `netarchive-archon/src/main/webapp/js/jquery-1.8.3.js:2739-2744` | two handlers of an element itself are called in the order they were attached |
| `EventRules.UnstoppedCallsAll` | `netarchive-archon/src/main/webapp/js/jquery-1.8.3.js:3042-3072` | if no handler stops the event, every call is made |
| `EventRules.StopAtOnceIsLast` | `netarchive-archon/src/main/webapp/js/jquery-1.8.3.js:3047-3049` | a handler that stops the event at once is the last one called |
| `EventRules.StopEndsWithNode` | `netarchive-archon/src/main/webapp/js/jquery-1.8.3.js:3042-3049` | a handler that stops the event lets the others of its node be called, and no more |
| `Events.ElementEvents.RunGroup` | `netarchive-archon/src/main/webapp/js/jquery-1.8.3.js:3047-3072` | one round of the queue: an immediate stop cuts it short, a stop lets it finish |
| `Events.ElementEvents.Dispatch` | `netarchive-archon/src/main/webapp/js/jquery-1.8.3.js:2985-3080` | dispatch holds the array itself, and the handlers called may splice it by add and remove; the calls are those decided by what the array held at the start and the reactions |
| `Events.SnapshotDecides` | `netarchive-archon/src/main/webapp/js/jquery-1.8.3.js:3042-3072` | these two determine the calls completely |
| `ArcPath.SplitThenJoin` | `netarchive-archon/src/main/java/dk/statsbiblioteket/netarchivesuite/archon/persistence/ArchonStorage.java:841-848` | folder and file id make up the path again |
| `ArcPath.JoinThenSplit` | `netarchive-archon/src/main/java/dk/statsbiblioteket/netarchivesuite/archon/persistence/ArchonStorage.java:841-848` | a row's folder and id are what splitting its full path gives |
| `ArcPath.SameTextSamePath` | `netarchive-archon/src/main/java/dk/statsbiblioteket/netarchivesuite/archon/persistence/ArcVO.java:94-108` | equality of cache entries, by full path, is equality of folder and file id |
| `ArcPath.ParseUndoesText` | `netarchive-archon/src/main/java/dk/statsbiblioteket/netarchivesuite/archon/persistence/ArchonStorage.java:356-405` | a shard id written in decimal is read back if it fits in 32 bits, of either sign, and refused otherwise |
| `ArchonSafety.RemoveFirstRemoves` | `netarchive-archon/src/main/java/dk/statsbiblioteket/netarchivesuite/archon/persistence/ArchonStorage.java:375-385` | removing the handed-out arc from a cache removes exactly the entry with its path |
| `ArchonSafety.ApplyKeepsConsistent` | `netarchive-archon/src/main/java/dk/statsbiblioteket/netarchivesuite/archon/persistence/ArchonStorage.java:222-746` | every call that does not move a cached arc to another folder keeps the caches duplicate-free and in step with the table's paths |
| `ArchonHandOuts.HandedOutTwiceOnlyAfterReset` | `netarchive-archon/src/main/java/dk/statsbiblioteket/netarchivesuite/archon/persistence/ArchonStorage.java:356-405` | over any interleaving of calls from any shards, an arc handed out twice was set back to NEW by a step in between |
| `ArchonRelocation.GoesOutTwiceIff` | `netarchive-archon/src/main/java/dk/statsbiblioteket/netarchivesuite/archon/persistence/ArchonStorage.java:222-405` | from every consistent store, a call makes it possible that some arc goes out twice without a reset exactly if it is an addARC or addOrUpdateARC that succeeds and puts a cached arc at another path |
| `ArchonRelocation.RunGoesOutTwiceIff` | `netarchive-archon/src/main/java/dk/statsbiblioteket/netarchivesuite/archon/persistence/ArchonStorage.java:222-746` | in every state of every run from empty caches, whatever calls it has, some arc can go out twice without a reset exactly if a cache lists an arc that is at another path by then |
| `ArchonRelocation.RemoveThenAddGoesOutTwice` | `netarchive-archon/src/main/java/dk/statsbiblioteket/netarchivesuite/archon/persistence/ArchonStorage.java:222-704` | removeARC and then addARC in another folder, for every consistent store and every cached arc in the table: the store in between is consistent but lists a row that is gone, and then the arc can go out twice |
| `ArchonRelocation.RemoveThenAddIsReached` | `netarchive-archon/src/main/java/dk/statsbiblioteket/netarchivesuite/archon/persistence/ArchonStorage.java:222-704` | these two calls after calls from an empty Archon |
| `ArchonRelocation.MoveIsReached` | `netarchive-archon/src/main/java/dk/statsbiblioteket/netarchivesuite/archon/persistence/ArchonStorage.java:222-405` | such a store and call are reached by calls from an empty Archon |
| `ArchonReplies.ApplyKeepsFreshIff` | `netarchive-archon/src/main/java/dk/statsbiblioteket/netarchivesuite/archon/persistence/ArchonStorage.java:330-746` | from a store in which each cached row is NEW and free or of the cache's shard, a call keeps it so exactly if it does not itself take a cached row out of the table, out of state NEW or to another shard |
| `ArchonReplies.CachedPriorityWins` | `netarchive-archon/src/main/java/dk/statsbiblioteket/netarchivesuite/archon/persistence/ArchonStorage.java:388-392` | a priority set for the arc at the head of a cache is overwritten by the cached one when nextARC hands the arc out |
| `ArchonCalls.AddedWaitsForAll` | `netarchive-archon/src/main/java/dk/statsbiblioteket/netarchivesuite/archon/persistence/ArchonStorage.java:222-306` | a new arc is offered to every shard, at its path and with priority 5 |
| `ArchonCalls.PresentIsNotAddedAgain` | `netarchive-archon/src/main/java/dk/statsbiblioteket/netarchivesuite/archon/persistence/ArchonStorage.java:222-306` | an arc that is there is refused by addARC, and by addOrUpdateARC gets the new folder and nothing else |
| `ArchonCalls.ClearReoffers` | `netarchive-archon/src/main/java/dk/statsbiblioteket/netarchivesuite/archon/persistence/ArchonStorage.java:712-730` | clearIndexing offers the arcs that were RUNNING for the shard to every shard, and changes no other row |
| `ArchonCalls.ResetShardReoffers` | `netarchive-archon/src/main/java/dk/statsbiblioteket/netarchivesuite/archon/persistence/ArchonStorage.java:733-746` | resetShardId offers all arcs of the shard to it and to no other, whatever their state was |
| `ArchonCalls.ResetArcReoffers` | `netarchive-archon/src/main/java/dk/statsbiblioteket/netarchivesuite/archon/persistence/ArchonStorage.java:652-681` | resetArcWithPriority offers the arc to every shard, with the given priority |
| `ArchonCalls.StateDecidesOffer` | `netarchive-archon/src/main/java/dk/statsbiblioteket/netarchivesuite/archon/persistence/ArchonStorage.java:524-555` | setARCState changes the state alone, and only NEW arcs are offered |
| `ArchonCalls.PropertiesDecideOffer` | `netarchive-archon/src/main/java/dk/statsbiblioteket/netarchivesuite/archon/persistence/ArchonStorage.java:584-616` | setARCProperties sets shard, state and priority, and so the arc is offered to that shard alone, or to none |
| `ArchonCalls.RemovedIsUnknown` | `netarchive-archon/src/main/java/dk/statsbiblioteket/netarchivesuite/archon/persistence/ArchonStorage.java:680-704` | an arc that was removed is unknown to the calls that name it |
| `ArchonCalls.HigherPriorityIsNext` | `netarchive-archon/src/main/java/dk/statsbiblioteket/netarchivesuite/archon/persistence/ArchonStorage.java:61-69` | an arc that is given a higher priority than all that wait is the next one for a shard whose cache is empty |
| `ArchonReplies.RunStaysFresh` | `netarchive-archon/src/main/java/dk/statsbiblioteket/netarchivesuite/archon/persistence/ArchonStorage.java:330-405` | the same for every state of a run |
| `ArchonReplies.NextArcHandsOutIffEligible` | `netarchive-archon/src/main/java/dk/statsbiblioteket/netarchivesuite/archon/persistence/ArchonStorage.java:356-405` | nextARC hands out an arc exactly when an eligible row exists |
| `ArchonReplies.EmptyReplyIff` | `netarchive-archon/src/main/java/dk/statsbiblioteket/netarchivesuite/archon/persistence/ArchonStorage.java:356-405` | the reply "" means that nothing is left exactly unless the entry next in line, in the cache or else in the answer, is that of the empty path; without a row for the empty path it always does |
| `ArchonReplies.EmptyRepliesAreTrue` | `netarchive-archon/src/main/java/dk/statsbiblioteket/netarchivesuite/archon/persistence/ArchonStorage.java:222-405` | in every quiet run from a table without the empty path in which nobody adds it, "" is replied exactly when no row is eligible |
| `ArchonDrain.DrainEndsEarlyIff` | `netarchive-archon/src/main/java/dk/statsbiblioteket/netarchivesuite/archon/persistence/ArchonStorage.java:330-405` | a shard that asks until "" is told so too early exactly if the empty path had a row eligible for it at the start |
| `ArchonReplies.EmptyPathReadsAsNothingLeft` | `netarchive-archon/src/main/java/dk/statsbiblioteket/netarchivesuite/archon/persistence/ArchonStorage.java:222-257` | after addARC("") the reply is "" although a row is eligible |
| `ArchonQueue.NextArcRefinesQueue` | `netarchive-archon/src/main/java/dk/statsbiblioteket/netarchivesuite/archon/persistence/ArchonStorage.java:61-69` | a call served from a cache that is a sharp prefix of the queue pops a best row of the whole table: one that is NEW and the shard's own or unassigned, its own if there is any, and of these one with the highest priority; it becomes RUNNING for the shard, and no row waits if nothing is popped |
| `ArchonQueue.InterleavedShardsRefineQueue` | `netarchive-archon/src/main/java/dk/statsbiblioteket/netarchivesuite/archon/persistence/ArchonStorage.java:330-405` | in runs of nextARC calls of any shards, across reloads of any size k, every call does what one unbatched priority queue would |
| `ArchonQueue.OwnRowComesFirst` | `netarchive-archon/src/main/java/dk/statsbiblioteket/netarchivesuite/archon/persistence/ArchonStorage.java:61-69` | whatever the priorities, the query's answer starts with a row of the shard's own while there is one waiting |
| `ArchonDrain.DrainIsSortedPermutation` | `netarchive-archon/src/main/java/dk/statsbiblioteket/netarchivesuite/archon/persistence/ArchonStorage.java:330-405` | asking until nothing is left hands out, exactly once, every row that is NEW and the shard's own or unassigned, its own before the unassigned and rows of one kind by falling priority, and then "" |
| `ArchonQueue.AnswerExists` | `netarchive-archon/src/main/java/dk/statsbiblioteket/netarchivesuite/archon/persistence/ArchonStorage.java:330-353` | the query has an answer on every table, so the runs above exist |
| `ArchonStorage.Storage.PerformAll` | `netarchive-archon/src/main/java/dk/statsbiblioteket/netarchivesuite/archon/persistence/ArchonStorage.java:222-746` | any sequence of calls, with paths as text, takes the storage through the states of a run of the specification |
| `ArchonStorage.Storage.NextARC` | `netarchive-archon/src/main/java/dk/statsbiblioteket/netarchivesuite/archon/persistence/ArchonStorage.java:356-405` | the method on table and caches equals the specification of nextARC |
| `ArchonStorage.Storage.RemoveFromAllCaches` | `netarchive-archon/src/main/java/dk/statsbiblioteket/netarchivesuite/archon/persistence/ArchonStorage.java:377-385` | the loop over the caches removes the arc from each |
| `ArchonSafety.OnlyConcernedRowsChange` | `netarchive-archon/src/main/java/dk/statsbiblioteket/netarchivesuite/archon/persistence/ArchonStorage.java:222-746` | a call changes no row but those of the arc it names or hands out, or of the running or assigned rows of the shard it is made for; if it throws it changes no row; only nextARC touches caches |
| `ArchonStorage.Storage.SetARCProperties` | `netarchive-archon/src/main/java/dk/statsbiblioteket/netarchivesuite/archon/persistence/ArchonStorage.java:584-616` | the update equals its specification; an unknown arc or a shard that is no number is refused |
| `ArchonStorage.Storage.ClearIndexing` | `netarchive-archon/src/main/java/dk/statsbiblioteket/netarchivesuite/archon/persistence/ArchonStorage.java:712-730` | RUNNING rows of the shard become NEW without shard |
| `BuilderProofs.StepKeepsInv` | `netarchive-arctika/src/main/java/dk/statsbiblioteket/netarchivesuite/arctika/builder/IndexBuilder.java:89-374` | every step of the builder, of its workers and of other callers keeps the invariant |
| `BuilderProofs.RunningIsHeldOnce` | `netarchive-arctika/src/main/java/dk/statsbiblioteket/netarchivesuite/arctika/builder/IndexBuilder.java:247-288` | in every state of a build, the arcs RUNNING for the shard are exactly the disjoint union of the outstanding jobs' arcs, the batch being drawn and the arcs of lost jobs |
| `BuilderProofs.StrandedAtMostOneBatch` | `netarchive-arctika/src/main/java/dk/statsbiblioteket/netarchivesuite/arctika/builder/IndexBuilder.java:89-133` | a build that ends with no job outstanding and none lost strands exactly the arcs of its last batch, at most `batch_size` |
| `BuilderStranding.DrawEndsIff` | `netarchive-arctika/src/main/java/dk/statsbiblioteket/netarchivesuite/arctika/builder/IndexBuilder.java:259-281` | a draw ends the build exactly if the reply names no existing file, for "" as for a missing file; the batch, with the arc whose file is missing, is then RUNNING and in no job |
| `BuilderStranding.SupplyExists` | `netarchive-arctika/src/main/java/dk/statsbiblioteket/netarchivesuite/arctika/builder/IndexBuilder.java:89-95` | the rows supplied are defined for every build |
| `BuilderStranding.BuildAccounts` | `netarchive-arctika/src/main/java/dk/statsbiblioteket/netarchivesuite/arctika/builder/IndexBuilder.java:247-288` | in every state of every build, the rows supplied (those eligible at the start, and what clearIndexing and other callers have added or taken since) are those left, those in the batch being drawn and those in full batches |
| `BuilderStranding.BatchAndLostAreStranded` | `netarchive-arctika/src/main/java/dk/statsbiblioteket/netarchivesuite/arctika/builder/IndexBuilder.java:89-133` | once no job is outstanding, exactly the batch and the arcs of lost jobs are RUNNING for the shard, each once |
| `BuilderStranding.DrawStrands` | `netarchive-arctika/src/main/java/dk/statsbiblioteket/netarchivesuite/arctika/builder/IndexBuilder.java:259-281` | over whole builds, whoever else takes part, a draw without a file strands the rows drawn before it modulo the batch size, one more if a row was left to draw, and next to them the arcs of lost jobs |
| `BuilderStranding.RunningOutStrandsRemainder` | `netarchive-arctika/src/main/java/dk/statsbiblioteket/netarchivesuite/arctika/builder/IndexBuilder.java:259-281` | in particular a build that runs out of rows strands the number supplied modulo the batch size, and the arcs of lost jobs |
| `BuilderStranding.OwnBuildSupply` | `netarchive-arctika/src/main/java/dk/statsbiblioteket/netarchivesuite/arctika/builder/IndexBuilder.java:89-95` | if no one else takes part, the rows supplied are those eligible after clearIndexing |
| `BuilderStranding.StrandsIff` | `netarchive-arctika/src/main/java/dk/statsbiblioteket/netarchivesuite/arctika/builder/IndexBuilder.java:89-133` | a build that ended, after all its jobs, strands arcs exactly if it lost a job with arcs, met a missing file, ran out of rows whose number the batch size does not divide, or was broken off by an exception with a batch begun |
| `BuilderStranding.OneRowIsStranded` | `netarchive-arctika/src/main/java/dk/statsbiblioteket/netarchivesuite/arctika/builder/IndexBuilder.java:89-288` | a whole build, from its start to its end, that strands the only arc there is |
| `BuilderStranding.NextBuildCanStart` | `netarchive-arctika/src/main/java/dk/statsbiblioteket/netarchivesuite/arctika/builder/IndexBuilder.java:89-95` | whatever state a build has reached, the next one can start on the store it left |
| `BuilderStranding.NextBuildRecovers` | `netarchive-arctika/src/main/java/dk/statsbiblioteket/netarchivesuite/arctika/builder/IndexBuilder.java:89-95` | across two builds, with other callers in between: when the second has cleared the shard, all that the first left RUNNING is eligible again for every shard, and nothing else is RUNNING for this one |
| `BuilderProofs.OptimizingIsAlone` | `netarchive-arctika/src/main/java/dk/statsbiblioteket/netarchivesuite/arctika/builder/IndexBuilder.java:152-245` | while the builder optimizes no job is active and none can be submitted |
| `BuilderProofs.CanAlwaysStartWorkers` | `netarchive-arctika/src/main/java/dk/statsbiblioteket/netarchivesuite/arctika/builder/IndexBuilder.java:247-256` | the branch "Cannot start new workers" is never taken |
| `BuilderProofs.RetriesAreBounded` | `netarchive-arctika/src/main/java/dk/statsbiblioteket/netarchivesuite/arctika/builder/IndexBuilder.java:349-373` | in a build no job is tried again more often than configured |
| `BuilderProofs.JobEndsMeans` | `netarchive-arctika/src/main/java/dk/statsbiblioteket/netarchivesuite/arctika/builder/IndexBuilder.java:322-374` | when a job ends while the builder is indexing and tries are left, the arcs it rejected are submitted again as one job; all its other arcs get the status of the run |
| `BuilderControl.EndsIff` | `netarchive-arctika/src/main/java/dk/statsbiblioteket/netarchivesuite/arctika/builder/IndexBuilder.java:89-133` | a build leaves its main loop exactly by a check that times out on its jobs or finds the index finished or too large, a poll that times out, a draw without a file, a batch size of zero, or an exception |
| `BuilderControl.StartsWithCheck` | `netarchive-arctika/src/main/java/dk/statsbiblioteket/netarchivesuite/arctika/builder/IndexBuilder.java:89-102` | a build clears its shard first and then checks whether there is anything to do |
| `BuilderControl.OptimizesIff` | `netarchive-arctika/src/main/java/dk/statsbiblioteket/netarchivesuite/arctika/builder/IndexBuilder.java:152-206` | it optimizes exactly at a check that finds all jobs done |
| `BuilderControl.OptimizeDecides` | `netarchive-arctika/src/main/java/dk/statsbiblioteket/netarchivesuite/arctika/builder/IndexBuilder.java:182-206` | an index that is neither too large nor finished puts the build back to indexing; the others end it |
| `BuilderControl.FillsUpTo` | `netarchive-arctika/src/main/java/dk/statsbiblioteket/netarchivesuite/arctika/builder/IndexBuilder.java:106-122` | workers are started only while fewer than allowed are at work, and otherwise one is waited for |
| `BuilderControl.SubmitStartsJob` | `netarchive-arctika/src/main/java/dk/statsbiblioteket/netarchivesuite/arctika/builder/IndexBuilder.java:283-287` | a full batch becomes one new job without failures |
| `BuilderControl.LimitSendsToCheck` | `netarchive-arctika/src/main/java/dk/statsbiblioteket/netarchivesuite/arctika/builder/IndexBuilder.java:104-122` | the optimize limit sends the build to its check, and a finished poll back to the limit |
| `BuilderControl.WaitsAreBounded` | `netarchive-arctika/src/main/java/dk/statsbiblioteket/netarchivesuite/arctika/builder/IndexBuilder.java:160-172` | one check waits for jobs at most as often as the configuration allows tries |
| `BuilderControl.OverDrawsNothing` | `netarchive-arctika/src/main/java/dk/statsbiblioteket/netarchivesuite/arctika/builder/IndexBuilder.java:104-133` | once the main loop is left, nothing more is drawn or submitted |
| `Retries.ChainIsBounded` | `netarchive-arctika/src/main/java/dk/statsbiblioteket/netarchivesuite/arctika/builder/IndexBuilder.java:349-373` | a worker's chain of runs has at most max(0, tries) + 1 of them |
| `Retries.BatchesShrink` | `netarchive-arctika/src/main/java/dk/statsbiblioteket/netarchivesuite/arctika/builder/IndexBuilder.java:349-373` | the retried set never grows |
| `Retries.ExactlyOneReport` | `netarchive-arctika/src/main/java/dk/statsbiblioteket/netarchivesuite/arctika/builder/IndexBuilder.java:322-374` | every arc of the batch is reported exactly once, as COMPLETED or REJECTED, whatever the outcomes and state changes |
| `Retries.GoesOnIff` | `netarchive-arctika/src/main/java/dk/statsbiblioteket/netarchivesuite/arctika/builder/IndexBuilder.java:349-373` | an arc goes into the next run exactly if this one rejected it, tries are left, and jobs can be started at its turn; otherwise this run reports it |
| `Retries.CompletedIsReported` | `netarchive-arctika/src/main/java/dk/statsbiblioteket/netarchivesuite/arctika/builder/IndexBuilder.java:352-354` | an arc is reported by the run that completes it |
| `Retries.GivenUpOnlyAtTheEnd` | `netarchive-arctika/src/main/java/dk/statsbiblioteket/netarchivesuite/arctika/builder/IndexBuilder.java:355-364` | an arc is given up only when its tries are used up, or when jobs cannot be started |
| `Retries.FailureUsesAllTries` | `netarchive-arctika/src/main/java/dk/statsbiblioteket/netarchivesuite/arctika/builder/IndexBuilder.java:349-373` | an arc that fails in every run, while jobs can be started, is in exactly max(0, tries) + 1 runs and reported by the last |
| `WorkerChain.RunChain` | `netarchive-arctika/src/main/java/dk/statsbiblioteket/netarchivesuite/arctika/builder/IndexBuilder.java:322-374` | runs of a worker and taskFinished, in turn: the runs form such a chain, and unless Archon refuses a report, every arc of the first batch ends up with the status of the one run that reported it |
| `WorkerChain.ReportsCompose` | `netarchive-arctika/src/main/java/dk/statsbiblioteket/netarchivesuite/arctika/builder/IndexBuilder.java:340-365` | the reports of one run and of the next are one report of all their arcs |
| `TaskReports.ReportAll` | `netarchive-arctika/src/main/java/dk/statsbiblioteket/netarchivesuite/arctika/builder/IndexBuilder.java:340-365` | the loop reports exactly the arcs that are not tried again, and changes nothing else |
| `TaskReports.TaskFinished` | `netarchive-arctika/src/main/java/dk/statsbiblioteket/netarchivesuite/arctika/builder/IndexBuilder.java:322-374` | the end of a run: what is reported, how many arcs are given up, and whether the worker is submitted again, with what arcs |
| `TaskReports.GivenUpMeans` | `netarchive-arctika/src/main/java/dk/statsbiblioteket/netarchivesuite/arctika/builder/IndexBuilder.java:355-364` | the arcs counted as failed are those rejected and not tried again |
| `IndexWorker.StatusesAreTerminal` | `netarchive-arctika/src/main/java/dk/statsbiblioteket/netarchivesuite/arctika/builder/IndexWorkerShellCall.java:78-111` | after a run every arc is COMPLETED or REJECTED; it is COMPLETED exactly if the run went through and the first line that settles it reports 0 |
| `LineVerdicts.OwnLineDecides` | `netarchive-arctika/src/main/java/dk/statsbiblioteket/netarchivesuite/arctika/builder/IndexWorkerShellCall.java:83-97` | an arc gets the verdict of a line of its own if no earlier line contains its name |
| `LineVerdicts.OwnVerdictsIff` | `netarchive-arctika/src/main/java/dk/statsbiblioteket/netarchivesuite/arctika/builder/IndexWorkerShellCall.java:78-100` | for output with one line of its own per arc: every arc gets its own line's verdict, for every choice of return codes, exactly if no earlier line can contain its name |
| `LineVerdicts.MayNameIff` | `netarchive-arctika/src/main/java/dk/statsbiblioteket/netarchivesuite/arctika/builder/IndexWorkerShellCall.java:84` | a line can contain a name, for some code in front of it, exactly if its rest does, or if the name is a code followed by the start of that rest |
| `LineVerdicts.HasCodeIff` | `netarchive-arctika/src/main/java/dk/statsbiblioteket/netarchivesuite/arctika/builder/IndexWorkerShellCall.java:85-87` | a line has a return code exactly if it is digits, a space, and anything up to its end, and then the digits are the code |
| `LineVerdicts.FailedRunRejectsAll` | `netarchive-arctika/src/main/java/dk/statsbiblioteket/netarchivesuite/arctika/builder/IndexWorkerShellCall.java:52-111` | a run that cannot be made, or fails, or has a code for one arc that is no 32-bit number, rejects all arcs |
| `LineVerdicts.CompletedIff` | `netarchive-arctika/src/main/java/dk/statsbiblioteket/netarchivesuite/arctika/builder/IndexWorkerShellCall.java:78-100` | otherwise an arc is completed exactly if its first line with a code says 0 |
| `LineVerdicts.FailedArcIsCompleted` | `netarchive-arctika/src/main/java/dk/statsbiblioteket/netarchivesuite/arctika/builder/IndexWorkerShellCall.java:83-97` | x.arc, which failed by its own line, is COMPLETED because x.arc.gz succeeded in the line before |
| `IndexWorker.Worker.Call` | `netarchive-arctika/src/main/java/dk/statsbiblioteket/netarchivesuite/arctika/builder/IndexWorker.java:96-115` | a run, also one that throws, leaves the statuses of the specification |
| `IndexWorker.Worker.ProcessARCs` | `netarchive-arctika/src/main/java/dk/statsbiblioteket/netarchivesuite/arctika/builder/IndexWorkerShellCall.java:52-111` | return code and output lines decide all statuses |
| `IndexWorker.Worker.ReadStatuses` | `netarchive-arctika/src/main/java/dk/statsbiblioteket/netarchivesuite/arctika/builder/IndexWorkerShellCall.java:78-100` | the nested loops over arcs and lines |

## Left out

- JDBC, HTTP, REST resources, JSP pages, Solr, process launching, logging, properties and waiting
  times: their effect is a parameter or a nondeterministic step.
- Creation and modification times, `nextShardId`, the listing queries, and `setShardState`, which
  binds the shard id as text to a numeric column.
- Thread interleaving inside a call of the store or inside `taskFinished`; the code takes no locks.
- ArchonReplies.RunStaysFresh: excludes calls that disturb a cached row, since the code does not
  refresh its caches after them.
- BuilderProofs.StrandedAtMostOneBatch: assumes that no job was lost, since taskFinished only logs a
  job that ends in an error and its arcs then stay RUNNING as well; with lost jobs,
  `BuilderStranding.BatchAndLostAreStranded` says what is RUNNING.
- The loops of `buildIndex` are steps of a state machine rather than one method, because the ends of
  workers fall between any two of its actions. An exception before `clearIndexing` ends a build that
  has done nothing and is not a step.
- `MemoryArchon`, the validation tool, file name parsing, the worker that spawns a JVM, schemas and
  shell scripts.
- IndexWorker.StatusesAreTerminal: digits are the ASCII ones, and text has no Unicode case or
  normalisation.
- Sizzle.Engine.Query: filters are pure predicates on nodes, so nested `:not` and `:has` and their
  fractional `dirruns` are excluded; the context of a query is fixed when it is compiled, although
  the source passes it on each call; a mark is the triple of its three numbers instead of their
  text.
- Sizzle.Engine.MatcherFromTokens: the branch for positional pseudos, which splits the tokens
  between the arguments of `setMatcher`, is left out; `SetMatcher` takes them as given.
- SuperMatcher.SuperMatch: element matchers are pure predicates. For a seed with placeholders only
  what is returned is stated, not what is added to results; the one caller that passes such seeds,
  `:not`, drops those results. Calls without a seed are excluded, since these sort at the end.
- Tokenizing, the native query API and the caches of compiled selectors; the latter are not bounded
  to 50 entries, because they store under the key with a space behind it and delete the bare key.
- Positional.SetMatch: calls without a seed and postFinders are excluded, since these run further
  queries; positions are integers, where the source lets NaN through.
- SortOrder.Compare: the branches with `compareDocumentPosition` and `sourceIndex` use browser
  objects.
- UniqueSort.Sorter.Sort: the order of comparisons is that of insertion sort; the language leaves it
  open.
- Exceptions thrown by callbacks and event handlers.
- `then`, `always` and `promise` of a Deferred, which only combine `done`, `fail` and `progress`.
- When.When: progress values are not followed; notifying the master is a step of any data.
- Events.ElementEvents.Dispatch: special event hooks, the event's result and default action, and
  bubbling to other elements; types come as the special events map them, namespaces are multisets of
  names instead of a regular expression, and removal without a type is excluded.
- The rest of jQuery, which depends on browser objects.
