# Verified model of the Unity scopes API

This project models the parts of the Unity scopes runtime whose correctness is hardest to see from the code, and
proves what they promise. `dafny verify dfyconfig.toml` checks all of it.

* **One query between client and scope.** `QueryObjects` holds the query object, the control servant and the
  client-side control as classes; every critical section of the source is a function on their fields that a method's
  contract refers to. `QueryProtocol` applies the same functions as events, adds every message send, message delivery
  and reference-count change as an event, and lets the threads interleave freely; `QueryGuarantees` proves lifetime,
  cancellation, completion accounting and termination over every run, and `QueryHistory` reads off the events of a run
  exactly what must have happened in it. `UndisturbedCalls` proves that the events of a
  call that no other thread disturbs have the outcome that is proved of the class's method. `ReplyDelivery` treats the
  client's reply object and any number of threads in the same way, and `EndToEnd` connects the two.
* **Variants and their codecs.** `Variants` (equality and order), `VariantOrder` (what the order means), `JsonNodes`
  (variant to JSON tree and back), `Percent` (percent-encoding), `CannedQueries` (the `scope://` URI), `UriMeaning` (what
  any URI means), `CannedQueryMaps` (the variant form of a query).
* **Departments.** Depth-first validation against a mutable set, lookup, the variant form, and the JSON cache.
* **Filters.** `FilterStates`, `OptionSelectors` (selection arrays updated in place), `Selections` (sessions
  with a filter), `DatePickers`, `FilterCodecs`, `FilterGroups` (groups shared by object identity) and `CachedFilters`.
* **Readers.** `MapReaders` and `FilterReaders` describe the variant forms independently of the code and prove that each
  reader accepts exactly what fits the description.
* **Child scopes.** The file of enabled states and its cache.
* **Registry.** `ScopeFiles` and `ScopeRegistry` (which configuration file wins), `WatchIndex` and `ScopesWatcher`
  (the index that file events drive), `WatchEffects` (what they do with scopes that come and go).

Loops and in-place updates of the source are methods and classes here; each is proved equal to a function, and the
properties are proved about the functions. `Results` stands for C++ exceptions: `Throws` with the exception's class.

## Where the code does less than it promises

Each of these is stated as an exact condition, followed here by the lemma that exhibits the failure.

* `operator<` of variants is a strict total order on a set of variants exactly if none of them holds a NaN
  (`OrdersIffNaNFree`); with one it can run in a circle (`NaNBreaksTransitivity`).
* A URI reproduces its query exactly if the scope id holds no `%` or `?` and no string holds a NUL (`UriRoundTrip`);
  the URI of scope `%41` names scope `A` (`PercentInScopeId`).
* `push()` can follow `finished()` at the listener exactly if more than one thread serves the reply object
  (`InOrderIffOneThread`, `Overtaking`), although the comment in the code rules that out.
* `has_active_option()` and "`active_options()` is not empty" differ exactly if the state lacks the filter while an
  option is on by default, or holds an array that goes wrong after naming an option (`HasActiveIffActiveNonEmpty`);
  through updates alone only the first can happen (`AgreeAfterUpdatesIff`, `DefaultIsNotCounted`).
* A radio-button filter reaches its internal error exactly if a stored id belongs to two options
  (`SingleSelectionIsSafe`, `DuplicateIdsReachTheInternalError`).
* A date outside the bounds that passes the one-second tolerance may be stored and then be unreadable
  (`AcceptedDateReadableIff`, `AcceptedButNotReadable`).
* A filter survives the surfacing cache exactly if it is not a date filter with a bound between 1901 and 2038 and holds
  no NUL (`CachedLikePushedIff`, `Bound2020IsLost`).
* Announced scopes and the watcher's index stay in agreement under exact conditions on each kind of event
  (`AnnounceAgreesIff`, `DropAgreesIff`, `ConfigRemovedAgreesIff`), which two configuration files in one directory
  violate (`TwoConfigsDrift`).
* Removing an installation directory clears the scopes below it exactly if all were listed (`InstallDirIsClearedIff`),
  which fails for a scope whose file arrived after its directory (`ScopeOutlivesItsInstallDir`).
* A scope named on the command line loses to a Click scope with its id, against the usage text
  (`CommandLineWinsIff`, `ClickBeatsCommandLine`).
* The first repetition of `child_scopes()` gives the original answer exactly if new duplicates agree
  (`AskThreeTimes`, `DisagreeingDuplicates`).

## Model

| member | source | states |
|---|---|---|
| `QueryObjects.QueryObject.SetSelf` | src/scopes/internal/QueryObject.cpp:217-224 | the object holds itself; nothing else changes |
| `QueryObjects.QueryObject.EnterRunSection` | src/scopes/internal/QueryObject.cpp:81-115 | admitted exactly if pushable (or an activation); either way self_ is cleared and the servant disconnected, and the reply proxy is remembered exactly if admitted |
| `QueryObjects.QueryObject.Run` | src/scopes/internal/QueryObject.cpp:79-143 | the scope runs exactly if the query was pushable; one Error exactly if it then throws; every exit drops self_ and disconnects |
| `QueryObjects.QueryObject.Activate` | src/scopes/internal/ActivationQueryObject.cpp:54-84 | the activation runs whatever the flag says and sends exactly one OK or Error |
| `QueryObjects.QueryObject.CancelSection` | src/scopes/internal/QueryObject.cpp:145-155 | exactly the caller that finds the flag up wins, and the flag is down afterwards |
| `QueryObjects.QueryObject.Cancel` | src/scopes/internal/QueryObject.cpp:145-189 | the scope's cancel runs exactly if the flag was up; Cancelled is sent exactly if it then throws or a reply proxy is alive |
| `QueryObjects.QueryCtrlObject.SetQuery` | src/scopes/internal/QueryCtrlObject.cpp:73-77 | the control object refers to the given query object |
| `QueryObjects.QueryCtrlObject.Cancel` | src/scopes/internal/QueryCtrlObject.cpp:46-59 | only the first of cancel and destroy reaches the query and disconnects; a live query is cancelled with the outcome of `QueryObject.Cancel`, a query that is gone is left alone |
| `QueryObjects.QueryCtrlObject.Destroy` | src/scopes/internal/QueryCtrlObject.cpp:61-68 | disconnects exactly if neither cancel nor destroy came before |
| `QueryObjects.QueryCtrlImpl.Cancel` | src/scopes/internal/QueryCtrlImpl.cpp:56-83 | before the proxy is known a cancel is only recorded; afterwards one forward and one local Cancelled |
| `QueryObjects.QueryCtrlImpl.SetProxy` | src/scopes/internal/QueryCtrlImpl.cpp:85-108 | with a reply proxy the control becomes ready and a recorded cancel is forwarded once; without one nothing happens |
| `UndisturbedCalls.UndisturbedRun` | src/scopes/internal/QueryObject.cpp:79-143 | the events of a run that nobody disturbs can happen in that order and yield the query fields, runs and completions of the methods `Run` and `Activate` |
| `UndisturbedCalls.UndisturbedCancel` | src/scopes/internal/QueryObject.cpp:145-189 | the same for the method `QueryObject.Cancel`, leaving the control servant and all references as they were |
| `UndisturbedCalls.UndisturbedControlCancel` | src/scopes/internal/QueryCtrlObject.cpp:46-59 | the same for the method `QueryCtrlObject.Cancel`, down to what the query sends |
| `UndisturbedCalls.UndisturbedDestroy` | src/scopes/internal/QueryCtrlObject.cpp:61-68 | the same for the method `Destroy` |
| `UndisturbedCalls.UndisturbedClientCancel` | src/scopes/internal/QueryCtrlImpl.cpp:56-83 | the same for the method `QueryCtrlImpl.Cancel` |
| `UndisturbedCalls.UndisturbedSetProxy` | src/scopes/internal/QueryCtrlImpl.cpp:85-108 | the same for the method `SetProxy` |
| `QueryProtocol.StepInv` | src/scopes/internal/QueryObject.cpp:66-224 | every event of every thread keeps the protocol invariant: each reference has one holder, the flag and its taker agree, completions and disconnects are accounted for |
| `QueryProtocol.RunKeepsInv` | src/scopes/internal/ScopeObject.cpp:62-149 | the invariant holds after every run from the creation of the query |
| `QueryProtocol.RunLeaveInv` | src/scopes/internal/ReplyImpl.cpp:49-58 | the invariant survives the end of run, where dropping the last reply proxy finishes the reply and gives up its reference to the query |
| `QueryGuarantees.QueryOutlivesItsUsers` | src/scopes/internal/QueryObject.cpp:203-224 | in every reachable state no enabled event touches a freed query; it is alive between set_self and the end of the dispatch of run and while any reply proxy exists; once run has had the lock neither self_ nor the servant table holds it |
| `QueryGuarantees.AliveExactlyWhileUsed` | src/scopes/internal/QueryObject.cpp:203-215 | once the creating call is over and run has had the lock, the object is alive exactly while a reply proxy, the run frame or a cancellation holds it |
| `QueryGuarantees.CancelledFirstNeverRuns` | src/scopes/internal/PreviewQueryObject.cpp:58-109 | a search or preview runs at most once, and in no continuation if cancel took the flag before run took the lock |
| `QueryGuarantees.FlagFallsOnceAndFreezesReplyProxy` | src/scopes/internal/QueryObject.cpp:145-170 | the flag never rises again, and after cancel took it the one step that writes the reply proxy never happens again |
| `QueryGuarantees.SearchCompletions` | src/scopes/internal/QueryObject.cpp:125-188 | at most one Error, one Cancelled and one finish; Cancelled only if cancel took the flag; a query kept out of run sends nothing unless the scope's cancel throws |
| `QueryHistory.RunIsReported` | src/scopes/internal/QueryObject.cpp:79-143 | read off the events: the scope runs exactly if run gets the lock before a cancellation checks the flag (an activation always); once run is over, an Error has been sent exactly if the scope threw, an OK exactly if an activation returned |
| `QueryHistory.CancelIsPursued` | src/scopes/internal/QueryCtrlObject.cpp:46-68 | exactly a cancel that arrives before a destroy is pursued, as far as the flag if the query is alive; the flag falls exactly by a check or a scope exception; exactly a check that comes first reaches the scope |
| `QueryHistory.CancelIsReported` | src/scopes/internal/QueryObject.cpp:157-188 | once a cancellation is over, Cancelled has been sent exactly if the scope's cancel threw, or returned while a reply proxy was alive |
| `QueryGuarantees.ActivationCompletesOnce` | src/scopes/internal/ActivationQueryObject.cpp:54-84 | after an activation's run exactly one completion has been sent, in every interleaving |
| `QueryGuarantees.ForwardsAreOwed` | src/scopes/internal/QueryCtrlImpl.cpp:56-108 | from any state, messages sent and about to be sent grow by exactly what the client's calls demand |
| `QueryGuarantees.CancellationReachesScopeOnce` | src/scopes/internal/QueryCtrlImpl.cpp:56-108 | forwards equal the cancels after set_proxy plus one if any came before; each is paired with a local Cancelled; the scope's cancel runs at most once |
| `QueryGuarantees.ControlDisconnectsOnce` | src/scopes/internal/QueryCtrlObject.cpp:46-68 | at most one disconnect, and exactly one once the query is freed and all messages are handled |
| `QueryGuarantees.InternalRunsAreBounded` | src/scopes/internal/QueryObject.cpp:79-189 | only boundedly many internal events follow one another, whatever the schedule |
| `QueryGuarantees.SettledMeansOver` | src/scopes/internal/QueryObject.cpp:66-77 | when no internal event is possible the query is freed, the control servant gone, nothing in flight and the client has been sent a completion |
| `QueryGuarantees.EveryQueryEnds` | src/scopes/internal/QueryObject.cpp:66-143 | every run can be continued to that end by internal events alone, and every run that cannot be continued has reached it |
| `ReplyDelivery.ListenerToldOnce` | src/scopes/internal/ReplyObject.cpp:147-198 | with any number of threads the listener's finished is called at most once, and exactly once when all calls are over and one was finished |
| `ReplyDelivery.CompletionIsDelivered` | src/scopes/internal/ReplyObject.cpp:147-198 | once a completion has arrived and all calls are over the listener has been told exactly once |
| `EndToEnd.ListenerHearsOfTheEndOnce` | src/scopes/internal/ReplyObject.cpp:79-92 | for every ended query whose completions reach the reply object, served by any number of threads, the listener is told exactly once |
| `ReplyDelivery.InOrderIffOneThread` | src/scopes/internal/ReplyObject.cpp:77-198 | no push reaches the listener after finished, and finished waits for executing pushes, in all runs exactly if at most one thread serves the object |
| `ReplyDelivery.Overtaking` | src/scopes/internal/ReplyObject.cpp:77-108 | a run of two threads in which a push follows finished |
| `ReplyDelivery.LatePushesHadPassedTheCheck` | src/scopes/internal/ReplyObject.cpp:77-108 | after finished won, the pushes still delivered or pending are exactly those that had passed the check before |
| `Bytes.IterationOrder` | src/scopes/internal/JsonCppNode.cpp:68-120 | std::map's iteration order, computed by repeatedly taking the least key |
| `Variants.EqIsIdentity` | src/scopes/Variant.cpp:180-183 | operator== is identity of nested values for NaN-free variants |
| `Variants.ReflexiveIffNaNFree` | src/scopes/Variant.cpp:180-183 | a variant equals itself exactly if it holds no NaN at any depth |
| `Variants.Trichotomy` | src/scopes/Variant.cpp:185-188 | of two NaN-free variants exactly one is less, or they are the same |
| `Variants.Transitive` | src/scopes/Variant.cpp:185-188 | operator< is transitive on nested NaN-free variants |
| `Variants.OperatorLessIsAStrictTotalOrder` | include/unity/scopes/Variant.h:139-148 | irreflexive, transitive and trichotomous together with operator== |
| `Variants.OrdersIffNaNFree` | include/unity/scopes/Variant.h:139-148 | operator< strictly and totally orders a set of variants, in step with operator==, if and only if none of them holds a NaN |
| `VariantOrder.KindsFollowTheEnum` | include/unity/scopes/Variant.h:139-148 | whatever the values, kinds are ordered Null, Int, Bool, String, Double, Dict, Array, Int64 |
| `VariantOrder.ScalarsByValue` | src/scopes/Variant.cpp:37-53 | integers by value, false before true, strings by prefix or first different byte |
| `VariantOrder.DoublesByValue` | src/scopes/Variant.cpp:185-188 | doubles by value between the infinities; a NaN is on neither side of anything |
| `VariantOrder.ArraysByFirstDifference` | src/scopes/Variant.cpp:185-188 | one array is less exactly if it is a proper prefix or has the lesser element at the first difference |
| `VariantOrder.DictsAreDecided` | src/scopes/Variant.cpp:185-188 | one dictionary is less exactly if, at the least key at which they differ, it has the lesser value, or it alone has the key and the other goes on, or the other alone has it and this one is at its end |
| `Variants.NaNBreaksTransitivity` | src/scopes/Variant.cpp:37-53 | three arrays with a NaN that are less than one another in a circle |
| `JsonNodes.VariantToNode` | src/scopes/internal/JsonCppNode.cpp:68-120 | the recursive conversion with its loops builds the tree that `ToNode` defines |
| `JsonNodes.NodeToVariant` | src/scopes/internal/JsonCppNode.cpp:137-200 | the callbacks collect the variant that `ToVariant` defines |
| `JsonNodes.NarrowIdempotent` | src/scopes/internal/JsonCppNode.cpp:171-195 | narrowing twice is narrowing once |
| `JsonNodes.TreeRoundTrip` | src/scopes/internal/JsonCppNode.cpp:68-200 | variant to tree and back is exactly narrowing of 64-bit integers that fit 32 bits, if and only if no string or key holds a NUL |
| `JsonNodes.TreeCuts` | src/scopes/internal/JsonCppNode.cpp:68-200 | with NUL in strings but not in names, the trip cuts each string at its first NUL and narrows |
| `JsonNodes.TreeRepresents` | src/scopes/internal/JsonCppNode.cpp:68-120 | the tree of a NUL-free variant says the same: kinds, values, order of elements, one member per entry |
| `JsonNodes.VariantRepresents` | src/scopes/internal/JsonCppNode.cpp:137-200 | and so does the variant of any tree |
| `Percent.ToPercentEncoding` | src/scopes/internal/Utils.cpp:54-69 | the loop computes `Encode` |
| `Percent.FromPercentEncoding` | src/scopes/internal/Utils.cpp:71-112 | the loop computes `Decode`, with both error paths |
| `Percent.DecodeEncode` | src/scopes/internal/Utils.cpp:54-112 | decoding undoes encoding for every byte string |
| `Percent.EncodedBytes` | src/scopes/internal/Utils.cpp:54-69 | encoded text holds only letters, digits and percent signs |
| `Percent.EncodedOneByOne` | src/scopes/internal/Utils.cpp:54-69 | letters and digits as they are, any other byte as a percent sign and its two upper-case hexadecimal digits |
| `Percent.EscapesMean` | src/scopes/internal/Utils.cpp:71-112 | an escape stands for the byte with these two hexadecimal digits in either case, other bytes for themselves |
| `Percent.OddEscapes` | src/scopes/internal/Utils.cpp:81-104 | what the number parser makes of signs, white space and non-digits, and which escapes are refused |
| `CannedQueries.PrintUri` | src/scopes/internal/CannedQueryImpl.cpp:198-222 | appending piece by piece yields `ToUri` |
| `CannedQueries.ReadUri` | src/scopes/internal/CannedQueryImpl.cpp:243-313 | the parser with all its error exits computes `FromUri` |
| `CannedQueries.ReadParameters` | src/scopes/internal/CannedQueryImpl.cpp:266-310 | scanning for separators reads the segments in order and stops at the first failure |
| `CannedQueries.ReadSegment` | src/scopes/internal/CannedQueryImpl.cpp:229-306 | one segment sets the field of its key after decoding, or is ignored |
| `CannedQueries.UnknownSegmentsAreIgnored` | src/scopes/internal/CannedQueryImpl.cpp:266-310 | inserting a segment with an unknown key or without `=` anywhere never changes the outcome |
| `CannedQueries.UriRoundTrip` | src/scopes/internal/CannedQueryImpl.cpp:198-313 | parsing the printed URI gives the query up to integer narrowing, if and only if the scope id has no `%` or `?` and the data no NUL |
| `CannedQueries.ScopeIdComesBackDecoded` | src/scopes/internal/CannedQueryImpl.cpp:198-265 | a scope id that reads as percent-encoded text comes back decoded, the rest of the query as usual |
| `CannedQueries.PercentInScopeId` | src/scopes/internal/CannedQueryImpl.cpp:198-265 | the URI of scope %41 is read as scope A |
| `UriMeaning.NotAUri` | src/scopes/internal/CannedQueryImpl.cpp:243-261 | a text without the schema or without a scope id is refused |
| `UriMeaning.NoParameters` | src/scopes/internal/CannedQueryImpl.cpp:251-312 | a URI that ends after the scope id means the same as one without parameters: the query for the decoded id |
| `UriMeaning.SegmentMeans` | src/scopes/internal/CannedQueryImpl.cpp:271-306 | each known key sets exactly its field, and which exception an unreadable value raises |
| `UriMeaning.FirstUnreadableDecides` | src/scopes/internal/CannedQueryImpl.cpp:266-310 | the first unreadable segment decides the exception |
| `UriMeaning.UriMeans` | src/scopes/internal/CannedQueryImpl.cpp:243-313 | a URI is accepted exactly if its id decodes and every known parameter is readable; the last value of each key counts |
| `CannedQueryMaps.QueryMapRoundTrip` | src/scopes/internal/CannedQueryImpl.cpp:71-108 | the variant form gives the query back exactly if its scope id is not empty, and throws otherwise |
| `MapReaders.QueryReadIff` | src/scopes/internal/CannedQueryImpl.cpp:71-108 | any map is read as a query exactly if it fits the description of that query, and which exception is thrown otherwise |
| `Departments.ValidateBelow` | src/scopes/internal/DepartmentImpl.cpp:200-214 | the recursion succeeds exactly if the tree's ids are distinct and new to the set, and then adds them all |
| `Departments.Validate` | src/scopes/internal/DepartmentImpl.cpp:216-250 | succeeds exactly if there is a parent with children, all ids are distinct and the current id occurs |
| `Departments.FindSubdepartment` | src/scopes/internal/DepartmentImpl.cpp:252-270 | returns the first node with the id in pre-order, or nothing |
| `Departments.FirstIsFound` | src/scopes/internal/DepartmentImpl.cpp:252-270 | a node is found exactly if the id occurs, and no earlier node has it |
| `Departments.ValidatedLookupIsUnique` | src/scopes/internal/DepartmentImpl.cpp:232-270 | in a validated tree lookup returns the one node with that id |
| `Departments.SerializeDepartment` | src/scopes/internal/DepartmentImpl.cpp:123-152 | the recursive loop writes the variant form |
| `Departments.CreateDepartment` | src/scopes/internal/DepartmentImpl.cpp:154-198 | the recursive loop reads it, with every exception |
| `Departments.DepartmentRoundTrip` | src/scopes/internal/DepartmentImpl.cpp:123-198 | at any depth create undoes serialize, if and only if every node has a label and a scope id; otherwise it throws |
| `Departments.CanonicalIsAlike` | src/scopes/internal/DepartmentImpl.cpp:113-152 | what comes back has the same labels, queries, ordered children and observable has_subdepartments |
| `Departments.CanonicalKeepsIds` | src/scopes/internal/DepartmentImpl.cpp:200-214 | its ids are the same in the same order, so validity is preserved |
| `MapReaders.DepartmentReadIff` | src/scopes/internal/DepartmentImpl.cpp:154-198 | any variant is read as a department exactly if it fits the description, at every depth |
| `MapReaders.WrittenDepartmentDescribes` | src/scopes/internal/DepartmentImpl.cpp:123-152 | what is written for a valid department fits it |
| `Departments.CachedDepartmentsComeBack` | src/scopes/internal/SearchReplyImpl.cpp:260-389 | departments survive the JSON cache up to integer narrowing in their queries, if and only if they hold no NUL |
| `FilterStates.FilterState.HasFilter` | src/scopes/internal/FilterStateImpl.cpp:38-45 | membership, or an exception for the empty id |
| `FilterStates.FilterState.Get` | src/scopes/internal/FilterStateImpl.cpp:56-68 | the stored value exactly if the id is not empty and present |
| `FilterStates.FilterState.Remove` | src/scopes/internal/FilterStateImpl.cpp:47-54 | erases exactly that entry |
| `OptionSelectors.UpdateById` | src/scopes/internal/OptionSelectorFilterImpl.cpp:266-316 | the in-place edit of the array has the effect `UpdateState` describes, and an exception leaves the state alone |
| `OptionSelectors.SelectionRefinesASet` | src/scopes/internal/OptionSelectorFilterImpl.cpp:266-316 | after any updates the array is duplicate-free and holds exactly the options whose last update was active |
| `OptionSelectors.OtherFiltersUnchanged` | src/scopes/internal/OptionSelectorFilterImpl.cpp:266-316 | updates never touch another filter's entry |
| `OptionSelectors.OptionSelectorFilter.Add` | src/scopes/internal/OptionSelectorFilterImpl.cpp:135-152 | appends, or throws for empty strings and for a second default in a single-select filter |
| `OptionSelectors.OptionSelectorFilter.Update` | src/scopes/internal/OptionSelectorFilterImpl.cpp:244-264 | in a single-select filter an activation first deselects the others; an unknown option throws |
| `OptionSelectors.OptionSelectorFilter.Active` | src/scopes/internal/OptionSelectorFilterImpl.cpp:172-215 | the loops compute the active options, defaults included |
| `OptionSelectors.OptionSelectorFilter.HasActive` | src/scopes/internal/OptionSelectorFilterImpl.cpp:217-242 | the loops find whether a stored id belongs to an option |
| `OptionSelectors.HasActiveIffActiveNonEmpty` | src/scopes/internal/OptionSelectorFilterImpl.cpp:172-242 | the two queries agree exactly unless the absent filter has a default, or the stored array goes wrong after an element that names an option |
| `OptionSelectors.AgreeAfterUpdatesIff` | src/scopes/internal/OptionSelectorFilterImpl.cpp:172-316 | after any updates from a state without the filter the two queries agree exactly if the filter was updated or has no default |
| `OptionSelectors.DefaultIsNotCounted` | src/scopes/internal/OptionSelectorFilterImpl.cpp:172-242 | a filter with a default option for which they differ |
| `Selections.SingleRun` | src/scopes/internal/OptionSelectorFilterImpl.cpp:98-264 | any sequence of additions, selections and replacements by filters read from any map keeps at most one default and one stored option |
| `Selections.SingleSelectionIsSafe` | src/scopes/internal/RadioButtonsFilterImpl.cpp:38-65 | from an empty filter, after any such sequence, the internal error is reached exactly if a stored id belongs to two options, hence never with distinct ids |
| `Selections.DuplicateIdsReachTheInternalError` | src/scopes/internal/RadioButtonsFilterImpl.cpp:49-65 | adding one option twice and selecting it reaches it |
| `Selections.SelectedAfterSession` | src/scopes/internal/OptionSelectorFilterImpl.cpp:244-264 | after any session the stored array lists without duplicates exactly the options whose selection was not undone, by a deselection or, with single selection, by selecting another; other filters' entries are as before |
| `Selections.ActiveAfterSession` | src/scopes/internal/OptionSelectorFilterImpl.cpp:172-242 | what active_options and has_active_option report after any session, defaults included |
| `Selections.SelectingReplaces` | src/scopes/internal/OptionSelectorFilterImpl.cpp:253-263 | selecting an option of a single-selection filter leaves exactly that one |
| `Selections.BothSelected` | src/scopes/internal/OptionSelectorFilterImpl.cpp:253-263 | two options of a multi-selection filter are selected together |
| `DatePickers.DateTimePickerFilter.UpdateState` | src/scopes/internal/DateTimePickerFilterImpl.cpp:156-182 | stores the date in seconds if it is valid, else throws and leaves the state alone |
| `DatePickers.DateTimePickerFilter.Selected` | src/scopes/internal/DateTimePickerFilterImpl.cpp:126-154 | returns the stored date if it is valid, else throws |
| `DatePickers.DatesWithinBoundsSurvive` | src/scopes/internal/DateTimePickerFilterImpl.cpp:126-272 | every date within the bounds is accepted, read back less than a second away, also after the bounds themselves were serialised |
| `DatePickers.DateAcceptedIff` | src/scopes/internal/DateTimePickerFilterImpl.cpp:156-182 | a date is accepted exactly if it is at most a second before the minimum and less than a second after the maximum; the whole seconds from the epoch are stored |
| `DatePickers.DateReadIff` | src/scopes/internal/DateTimePickerFilterImpl.cpp:126-154 | reading gives the stored date exactly if it passes the same test, and the exception otherwise |
| `DatePickers.AcceptedDateReadableIff` | src/scopes/internal/DateTimePickerFilterImpl.cpp:126-182 | the exact condition under which an accepted date can be read |
| `DatePickers.AcceptedButNotReadable` | src/scopes/internal/DateTimePickerFilterImpl.cpp:126-182 | an accepted date that cannot |
| `FilterCodecs.OptionsRoundTrip` | src/scopes/internal/OptionSelectorFilterImpl.cpp:71-128 | re-adding the written options rebuilds the list, given at most one default |
| `FilterCodecs.SelectorRoundTrip` | src/scopes/internal/OptionSelectorFilterImpl.cpp:71-128 | an option selector is read back and its base entries survive |
| `FilterCodecs.PickerRoundTrip` | src/scopes/internal/DateTimePickerFilterImpl.cpp:192-248 | a date filter is read back with bounds truncated to seconds |
| `FilterCodecs.FilterRoundTrip` | src/scopes/internal/FilterBaseImpl.cpp:134-202 | a filter comes back, bounds truncated, if and only if its display hint is allowed for its class; otherwise reading throws |
| `FilterCodecs.ReadOptionsAreSound` | src/scopes/internal/OptionSelectorFilterImpl.cpp:98-152 | whatever options are read, a single-select filter keeps at most one default and no option lacks an id or a label |
| `FilterCodecs.ReadFilterIsSound` | src/scopes/internal/FilterBaseImpl.cpp:165-202 | every filter that can be read from any map meets what the constructors enforce |
| `FilterReaders.HintsReadIff` | src/scopes/internal/FilterBaseImpl.cpp:63-79 | hints from numbers 0 and 1, from the word "primary" and other words, and from nothing |
| `FilterReaders.SelectorReadIff` | src/scopes/internal/OptionSelectorFilterImpl.cpp:98-128 | any map is read as an option selector exactly if it fits the description |
| `FilterReaders.PickerReadIff` | src/scopes/internal/DateTimePickerFilterImpl.cpp:213-248 | any map is read as a date picker exactly if it fits the description |
| `FilterReaders.FilterReadIff` | src/scopes/internal/FilterBaseImpl.cpp:52-202 | any map is read as one of these filters exactly if it fits the description, hint rules included |
| `FilterReaders.WrittenFilterDescribes` | src/scopes/internal/FilterBaseImpl.cpp:134-153 | what is written for a filter fits it |
| `FilterGroups.GroupsOf` | src/scopes/internal/FilterGroupImpl.cpp:49-77 | each group in use once, none else |
| `FilterGroups.SerializeFilterGroups` | src/scopes/internal/FilterGroupImpl.cpp:49-77 | throws exactly if two group objects have one id; otherwise describes every group once in order of first use |
| `FilterGroups.DeserializeFilterGroups` | src/scopes/internal/FilterGroupImpl.cpp:79-91 | one group per id, the last description winning; the first bad element decides the exception |
| `FilterGroups.SerializeFilters` | src/scopes/internal/FilterBaseImpl.cpp:204-212 | every filter in its place with its group's id |
| `FilterGroups.DeserializeFilters` | src/scopes/internal/FilterBaseImpl.cpp:214-238 | every filter in its place with the group of that id; an unknown group throws |
| `FilterReaders.GroupReadIff` | src/scopes/internal/FilterGroupImpl.cpp:79-91 | any variant is read as a group exactly if it gives an id and a label |
| `FilterReaders.GroupedReadIff` | src/scopes/internal/FilterBaseImpl.cpp:214-238 | and as a grouped filter exactly if it describes the filter and names a known group or none |
| `FilterGroups.Transfer` | src/scopes/internal/ResultReplyObject.cpp:64-82 | pushing and receiving filters keeps order, contents, and group ids and labels, and two filters share a group afterwards exactly if they did before; it fails exactly on clashing groups or a forbidden hint |
| `CachedFilters.CachedFilterComesBack` | src/scopes/internal/SearchReplyImpl.cpp:265-405 | every filter read from the JSON cache: a date filter with a bound that fits 32 bits throws, any other arrives as an ordinary push of it with its strings cut at their first NUL |
| `CachedFilters.CachedLikePushedIff` | src/scopes/internal/SearchReplyImpl.cpp:265-405 | an allowed filter is read from the cache as an ordinary push delivers it, if and only if it has no bound that fits 32 bits and no string holds a NUL |
| `CachedFilters.Bound2020IsLost` | src/scopes/internal/DateTimePickerFilterImpl.cpp:237-247 | a filter that starts in 2020 and cannot be read back |
| `ChildScopes.ListToJson` | src/scopes/internal/ChildScopesRepository.cpp:118-132 | the stream of pieces is the bracketed, comma-separated list |
| `ChildScopes.ListTextIsJson` | src/scopes/internal/ChildScopesRepository.cpp:118-132 | for ids that need no escaping the text is the compact JSON text of the list |
| `ChildScopes.JsonToList` | src/scopes/internal/ChildScopesRepository.cpp:134-185 | unparsable text and other roots say nothing, bad children are skipped, a child that is no object throws |
| `ChildScopes.StatesMean` | src/scopes/internal/ChildScopesRepository.cpp:153-184 | any array is refused exactly if an element is no object; otherwise an id has the state of the first complete and well-typed child with it |
| `ChildScopes.FirstAppearanceCounts` | src/scopes/internal/ChildScopesRepository.cpp:177-183 | reading a list gives each id the state of its first appearance |
| `ChildScopes.Repository.ReadRepo` | src/scopes/internal/ChildScopesRepository.cpp:93-116 | a cache marked as latest equals the parsed file; reading through it or past it gives the same states |
| `ChildScopes.Repository.WriteRepo` | src/scopes/internal/ChildScopesRepository.cpp:74-91 | a successful write replaces the file and invalidates the cache; a failed one changes nothing |
| `ChildScopes.Repository.GetChildScopes` | src/scopes/internal/ChildScopesRepository.cpp:37-65 | same children in the same order with the states the file knows, written back; if reading throws the file is untouched |
| `ChildScopes.Repository.SetChildScopes` | src/scopes/internal/ChildScopesRepository.cpp:67-72 | replaces the file without reading it |
| `ChildScopes.WrittenStatesAreRead` | src/scopes/internal/ChildScopesRepository.cpp:118-185 | what is written is what is read, by first appearance |
| `ChildScopes.AskingAgain` | src/scopes/internal/ChildScopesRepository.cpp:37-132 | a second call repeats the first answer exactly if new duplicates agreed, a third always repeats the second |
| `ChildScopes.AskThreeTimes` | src/scopes/internal/ChildScopesRepository.cpp:37-116 | the same of three calls on one repository, cache included |
| `ChildScopes.DisagreeingDuplicates` | src/scopes/internal/ChildScopesRepository.cpp:37-65 | two duplicates for which the second answer differs |
| `ChildScopes.TextDeterminesTree` | src/scopes/internal/ChildScopesRepository.cpp:118-132 | for ids that need no escaping the text determines ids and states |
| `ChildScopes.SuchAParserExists` | src/scopes/internal/ChildScopesRepository.cpp:134-152 | so the hypothesis about the parser can be met |
| `ScopeFiles.FindScopeDirConfigs` | scoperegistry/FindFiles.cpp:77-98 | the first configuration file per id, settings files left out |
| `ScopeFiles.FindInstallDirConfigs` | scoperegistry/FindFiles.cpp:105-139 | per id the file of the first listed directory that has one |
| `ScopeFiles.FoundIsFirst` | scoperegistry/FindFiles.cpp:105-139 | no earlier directory or file offers the id, and an id that is not found is offered nowhere |
| `ScopeFiles.ConfigIffIni` | scoperegistry/FindFiles.cpp:84-92 | exactly the names that end in .ini but not in -settings.ini are configuration files |
| `ScopeRegistry.FindLocalScopes` | scoperegistry/scoperegistry.cpp:123-186 | per id the fixed Canonical file, else the OEM file, else the overrideable Canonical file; unreadable Canonical files count as absent |
| `ScopeRegistry.LocalPrecedence` | scoperegistry/scoperegistry.cpp:119-186 | which file a local id has, said on the listings |
| `ScopeRegistry.FindClickScopes` | scoperegistry/scoperegistry.cpp:188-222 | exactly the Click scopes whose id is not local |
| `ScopeRegistry.ClickPrecedence` | scoperegistry/scoperegistry.cpp:188-222 | a Click file is used only where no OEM file and no parsable Canonical file has the id |
| `ScopeRegistry.AddArguments` | scoperegistry/scoperegistry.cpp:555-560 | the last argument with a stem replaces the local entry |
| `ScopeRegistry.Populate` | scoperegistry/scoperegistry.cpp:549-563 | the closed form of the table after start-up |
| `ScopeRegistry.EntryPrecedence` | scoperegistry/scoperegistry.cpp:549-563 | each entry of the table: usable Click scope, else last argument, else local scope |
| `ScopeRegistry.CommandLineWinsIff` | scoperegistry/scoperegistry.cpp:448-454 | a command-line scope is the one used exactly if no usable Click scope has its id, or the id is local |
| `ScopeRegistry.ClickBeatsCommandLine` | scoperegistry/scoperegistry.cpp:549-563 | a family of inputs where it is not |
| `WatchIndex.ListedUnderParent` | scoperegistry/ScopesWatcher.cpp:162-236 | in every run each directory listed under an installation directory has it as its parent |
| `WatchEffects.NewScopeIsPickedUp` | scoperegistry/ScopesWatcher.cpp:162-207 | a directory that appears in an installation directory is indexed, announced and listed with its first configuration file unless that is empty, and nothing else changes |
| `WatchEffects.GoneScopeIsDropped` | scoperegistry/ScopesWatcher.cpp:209-236 | a directory that goes takes its scope out of index, announcements and listing, and nothing else |
| `WatchEffects.ConfigEvents` | scoperegistry/ScopesWatcher.cpp:244-288 | what an added, modified or removed configuration file changes, and nothing else |
| `WatchEffects.OtherEventsAreIgnored` | scoperegistry/ScopesWatcher.cpp:289-343 | every other event changes nothing |
| `WatchEffects.InstallPicksUp` | scoperegistry/ScopesWatcher.cpp:51-110 | an installation directory is listed afresh: exactly its sub-directories that hold a scope are indexed, announced and listed |
| `WatchEffects.RemovalDrops` | scoperegistry/ScopesWatcher.cpp:126-143 | an installation directory that goes takes exactly the scopes listed under it |
| `WatchEffects.PickedUpAndRemoved` | scoperegistry/ScopesWatcher.cpp:51-143 | a scope picked up with its installation directory goes with it |
| `WatchIndex.AnnounceAgreesIff` | scoperegistry/ScopesWatcher.cpp:184-198 | announcing keeps announcements and index in agreement exactly if it does not displace another scope's last configuration |
| `WatchIndex.DropAgreesIff` | scoperegistry/ScopesWatcher.cpp:209-236 | removing keeps them in agreement exactly if no other directory has that id |
| `WatchIndex.ConfigRemovedAgreesIff` | scoperegistry/ScopesWatcher.cpp:280-287 | removing a configuration file keeps them in agreement exactly if no other directory has that id and the directory's own entry is not the last one of another scope |
| `WatchIndex.AnnouncedAreIndexed` | scoperegistry/ScopesWatcher.cpp:51-344 | in every run with one scope per directory and distinct ids, the announced ids are the stems of the indexed files |
| `WatchIndex.TwoConfigsDrift` | scoperegistry/ScopesWatcher.cpp:272-287 | with two files in a directory a scope ends up announced but not indexed |
| `WatchIndex.InstallDirIsClearedIff` | scoperegistry/ScopesWatcher.cpp:126-143 | removing an installation directory clears all scopes below it exactly if each was listed, and no others |
| `WatchIndex.ScopeOutlivesItsInstallDir` | scoperegistry/ScopesWatcher.cpp:126-288 | a run, with the file system as it is at each event, after which one is left |
| `ScopesWatcher.ScopesWatcher.AddWatch` | scoperegistry/DirWatcher.cpp:57-91 | throws for a watched or missing directory, else watches it |
| `ScopesWatcher.ScopesWatcher.AddScopeDir` | scoperegistry/ScopesWatcher.cpp:162-207 | indexes, lists and announces the least configuration unless its file is empty |
| `ScopesWatcher.ScopesWatcher.RemoveScopeDir` | scoperegistry/ScopesWatcher.cpp:209-236 | undoes that, and throws exactly for the empty id |
| `ScopesWatcher.ScopesWatcher.AddInstallDir` | scoperegistry/ScopesWatcher.cpp:51-110 | resets the listing and scans the sub-directories; throws exactly if the directory is watched already |
| `ScopesWatcher.ScopesWatcher.RemoveInstallDir` | scoperegistry/ScopesWatcher.cpp:126-143 | removes the listed scope directories in order, up to and including the first one whose scope the registry refuses to remove, and throws exactly then |
| `ScopesWatcher.ScopesWatcher.ConfigEvent` | scoperegistry/ScopesWatcher.cpp:244-288 | an added non-empty or modified file is indexed and announced, a removed one dropped |
| `ScopesWatcher.ScopesWatcher.WatchEvent` | scoperegistry/ScopesWatcher.cpp:238-344 | the exact exception, the effect of `Handle` without one, about which the runs are proved, and the index that an exception leaves behind |

## Left out

- The JSON text layer (json-glib): a pair of functions whose round trip is a stated hypothesis (`TextCarries`, `ParsesLists`) for the trees at hand.
- Middleware, proxies and the zmq transport: oneway sends do not throw, every message is delivered at most once, `run` is dispatched once per query and the dispatcher holds a reference during the call.
- The virtual time between critical sections: events are atomic, and the C++ memory model beyond mutexes and atomics is not modelled.
- `QueryCtrlImpl` destruction, `pushable()` and `cardinality()`: getters or empty.
- `ReplyObject` reaping, info messages and exceptions thrown by listeners.
- Rating, range-input, value-slider and switch filters: not modelled; reading one of these types throws in this model, where the code reads it.
- DatePickers.DateTimePickerFilter.Selected: stored seconds whose nanoseconds leave the 64-bit range are multiplied exactly, where the code overflows.
- DatePickers.DatesWithinBoundsSurvive: bounds within a second of the ends of the 64-bit range are widened by the tolerance exactly, where the code overflows.
- Bounds read from foreign data whose seconds leave the 64-bit nanosecond range: reading them throws in this model, where the code overflows.
- `isalnum` in locales other than C.
- Paths that begin with exactly two slashes, and the empty path, for which the code reads before the start of a string.
- Changes of the file system while one event is handled, failing inotify calls, and concurrent calls into the watcher.
- Creating metadata from a configuration file: a parameter that says for which id and file it succeeds.
- The texts of exceptions and log messages.
- Categories, results, annotations, previews, settings, online accounts, the scope runner and the smart scopes proxy: flat copies, system calls or foreign libraries.
