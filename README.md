# es-entity, modelled in Dafny

es-entity is a Rust event-sourcing library. An entity is stored as an
append-only table of events plus an index table of its queryable columns. The
`EsRepo` derive macro generates a repository for it over Postgres. This project
models the decisions and the state changes of that core. On the generator side:

- the column options with their defaults and placeholder numbering;
- the generated SQL text of the `create`, `update`, `delete`, `find_by_*` and
  `list_for_filters` queries;
- the error types the repository generates and the mapping from a violated
  constraint to its column;
- the combined pagination cursor;
- `persist_events` and `update_all`, which write event rows under consecutive
  sequence numbers, and the concurrent-modification error a clash on a
  sequence becomes;
- the nested-children helpers;
- the `#[retry_on_concurrent_modification]` loop.

On the runtime side:

- `Idempotent` and `idempotency_guard!`;
- the library's error predicates;
- `Forgettable` fields and their erasure in event payloads;
- `Nested<T>`;
- the commit-hook registry of an atomic operation;
- the thread-local event-context stack;
- the artificial clock and its controller;
- the cached operation time;
- `TransactionTime`;
- the `User` and `Customer` test entities, which show the guarded update and
  hydration patterns.

State the Rust code mutates in place becomes a Dafny `class`, with `seq` and
`map` fields and `modifies` clauses. Each such class is proved against pure
functions, and properties are proved about those functions as lemmas. The
database tables are maps held by `RepoWrites.Database` and `EventStore.Op`. A
transaction is a copy of the tables that is written back only on commit.

File layout: one `.dfy` file per component, with one module per file
(`wrappers.dfy`, `seqs.dfy` and `text.dfy` hold shared helpers).

## Model

| member | source | states |
|---|---|---|
| ArtificialClock.MinIndex | src/clock/artificial.rs:66-73 | the heap's top is a pending wake that no other entry precedes in (wake time, sleep id) order |
| ArtificialClock.NextWake | src/clock/artificial.rs:175-178 | `None` exactly when nothing is pending; otherwise a wake time of some entry no later than any other entry's |
| ArtificialClock.NotDueContents | src/clock/artificial.rs:182-196 | after waking up to `t`, exactly the entries later than `t` stay pending; the woken and the staying add up to the whole queue |
| ArtificialClock.WithoutContents | src/clock/artificial.rs:162-167 | cancelling a sleep keeps exactly the entries of other sleep ids |
| ArtificialClock.NotDueAppend | src/clock/artificial.rs:182-196 | waking is independent per entry: on a concatenation it is the waking of each part |
| ArtificialClock.AllLater | src/clock/artificial.rs:186-189 | when every entry is later than `t`, nothing is woken and the queue is unchanged |
| ArtificialClock.RemoveDue | src/clock/artificial.rs:190-192 | popping one due entry keeps what will stay pending and leaves one fewer to wake |
| ArtificialClock.NotDueTwice | src/clock/artificial.rs:216-237 | waking up to `m` and then up to a later `t` leaves and counts the same as waking up to `t` at once |
| ArtificialClock.AdvanceStep | src/clock/artificial.rs:219-230 | a stop of `advance` at the earliest wake wakes at least one entry, shrinks the queue and leaves only later entries |
| ArtificialClock.Clock.constructor | src/clock/artificial.rs:78-91 | a new clock has the configured mode and start time and nothing pending |
| ArtificialClock.Clock.NowMs | src/clock/artificial.rs:99-110 | manual mode reads the stored time, realtime the wall clock, auto-advance the stored time plus the scaled elapsed time |
| ArtificialClock.Clock.NextWakeTime | src/clock/artificial.rs:175-178 | the earliest pending wake time, with the properties of `NextWake` |
| ArtificialClock.Clock.PendingWakeCount | src/clock/artificial.rs:259-261 | the number of pending wakes |
| ArtificialClock.Clock.RegisterWake | src/clock/artificial.rs:152-159 | adds exactly one pending entry; mode and time unchanged |
| ArtificialClock.Clock.CancelWake | src/clock/artificial.rs:162-167 | the queue becomes the entries of the other sleeps; mode and time unchanged |
| ArtificialClock.Clock.ClearPendingWakes | src/clock/artificial.rs:170-172 | nothing pending afterwards; mode and time unchanged |
| ArtificialClock.Clock.TransitionToRealtime | src/clock/artificial.rs:138-149 | realtime mode and every pending sleep woken (queue empty); stored time unchanged |
| ArtificialClock.Clock.SetTime | src/clock/artificial.rs:199-202 | only the stored time changes |
| ArtificialClock.Clock.WakeTasksAt | src/clock/artificial.rs:182-196 | the queue keeps exactly the entries later than the bound; the count is the number due; the woken entries and the remaining queue together are exactly the old queue, and the woken come out in heap order, each due |
| ArtificialClock.Clock.StopAt | src/clock/artificial.rs:220-230 | one stop: the time becomes the earliest wake; a non-empty batch is woken, each entry due exactly at the new time, in heap order; the batch plus the queue is the old queue; what is due by the target afterwards plus the batch is what was due before |
| ArtificialClock.Clock.AdvanceManual | src/clock/artificial.rs:212-239 | the time ends at the target; the queue keeps exactly the entries later than the target; exactly the due entries are woken, in (wake time, sleep id) order, each while the clock stands at its own wake time; the stops are increasing pending wake times no later than the target, and every due wake time is a stop |
| ArtificialClock.Clock.RunStops | src/clock/artificial.rs:219-237 | the loop keeps the advance invariant (stops increasing and earlier than everything pending, woken entries plus queue equal the old queue, each logged at its stop) and ends when nothing more is due by the target |
| ArtificialClock.Clock.Advance | src/clock/artificial.rs:206-240 | outside manual mode nothing changes and 0 is returned; in manual mode the time moves by the duration, exactly the sleeps due by then are woken, in order, each at its own wake time, and every due wake time is a stop |
| ArtificialClock.Clock.AdvanceToNextWake | src/clock/artificial.rs:244-256 | `None` exactly when not manual or nothing pending, with nothing changed; otherwise the earliest wake time, which becomes the time, with everything due then woken |
| ArtificialClock.PendingWakeOrdering | src/clock/artificial.rs:313-331 | wakes registered at 3000, 1000, 2000 come out at 1000, then 2000, then 3000 |
| ClockController.Controller.constructor | src/clock/controller.rs:14-17 | the controller shares the given clock |
| ClockController.Controller.Advance | src/clock/controller.rs:54-56 | the clock's `advance` contract seen through the shared clock, with the stops and the woken sleeps passed on: exactly the due ones woken, in order, each at its wake time; every stop is the wake time of a sleep pending before the call, no later than the new time, and the stops strictly increase |
| ClockController.Controller.AdvanceToNextWake | src/clock/controller.rs:95-97 | the clock's `advance_to_next_wake` contract |
| ClockController.Controller.SetTime | src/clock/controller.rs:106-110 | the time jumps and every sleep due by the new time is woken at once, unlike `advance` |
| ClockController.Controller.PendingWakeCount | src/clock/controller.rs:116-118 | the clock's pending count |
| ClockController.Controller.NowMs | src/clock/controller.rs:123-125 | the clock's current time |
| ClockController.Controller.TransitionToRealtime | src/clock/controller.rs:135-137 | realtime mode with nothing left pending |
| ClockController.Controller.ClearPendingWakes | src/clock/controller.rs:145-147 | nothing pending, count 0; time and mode unchanged |
| ClockController.Controller.ResetTo | src/clock/controller.rs:152-156 | the time is set and nothing is left pending, count 0 |
| RepoColumns.ListForByColumns | es-entity-macros/src/repo/options/columns.rs:579-584 | a column without `list_for` has no `by` columns |
| RepoColumns.OptionDefaults | es-entity-macros/src/repo/options/columns.rs:567-608 | `find_by` and both persist flags hold unless explicitly switched off; `list_by` holds only when explicitly switched on |
| RepoColumns.NewOptsDefaults | es-entity-macros/src/repo/options/columns.rs:554-565 | a column given only a type is found by, not listed by, persisted on create and update, has no `list_for` and is not the id |
| RepoColumns.ForId | es-entity-macros/src/repo/options/columns.rs:377-397 | the implicit id column is named `id`, has the entity's id type and is the id |
| RepoColumns.ForCreatedAt | es-entity-macros/src/repo/options/columns.rs:399-425 | the implicit `created_at` column is not the id |
| RepoColumns.ImplicitColumns | es-entity-macros/src/repo/options/columns.rs:377-425 | `id` is written on create and never on update, `created_at` on neither; both are list_by; only `id` is find_by |
| RepoColumns.WithIdColumn | es-entity-macros/src/repo/options/columns.rs:18-25 | `created_at` first, `id` second, then the configured columns unchanged |
| RepoColumns.Columns.constructor | es-entity-macros/src/repo/options/columns.rs:4-7 | holds the given columns |
| RepoColumns.Columns.SetIdColumn | es-entity-macros/src/repo/options/columns.rs:18-25 | the column list becomes `WithIdColumn` of the old one |
| RepoColumns.FilterContents | es-entity-macros/src/repo/options/columns.rs:27-37 | the filters keep exactly the columns satisfying the option |
| RepoColumns.FilterAppend | es-entity-macros/src/repo/options/columns.rs:27-37 | filtering a concatenation filters each part, keeping order |
| RepoColumns.FilterPositions | es-entity-macros/src/repo/options/columns.rs:27-37 | the filter keeps, in increasing order of position, exactly the columns satisfying the option |
| RepoColumns.Names | es-entity-macros/src/repo/options/columns.rs:177-188 | one name per column, in column order |
| RepoColumns.InsertColumnNames | es-entity-macros/src/repo/options/columns.rs:177-188 | a name is returned exactly when some column persisted on create has it, and there are no more names than columns |
| RepoColumns.NamesOfFilter | es-entity-macros/src/repo/options/columns.rs:177-188 | the names of the filtered columns are exactly the names of the columns satisfying the option |
| RepoColumns.InsertColumnNamesInOrder | es-entity-macros/src/repo/options/columns.rs:177-188 | the k-th name is that of the k-th column persisted on create, in column order, and every such column is named |
| RepoColumns.PlaceholderList | es-entity-macros/src/repo/options/columns.rs:190-200 | `count` placeholders, the k-th being `$first+k` |
| RepoColumns.InsertPlaceholders | es-entity-macros/src/repo/options/columns.rs:190-200 | one placeholder per INSERT column name, numbered from `$offset+1`, joined by commas |
| RepoColumns.InsertPlaceholdersEmpty | es-entity-macros/src/repo/options/columns.rs:190-200 | the placeholder list is empty exactly when no column is inserted |
| RepoColumns.UpdateAssignments | es-entity-macros/src/repo/options/columns.rs:202-211 | after skipping the first column, the k-th column persisted on update is assigned `$k+2` |
| RepoColumns.Numbered | es-entity-macros/src/repo/options/columns.rs:202-211 | numbering gives the k-th column the index `first+k` |
| RepoColumns.RenderAll | es-entity-macros/src/repo/options/columns.rs:202-211 | one `name = $i` item per assignment, in order |
| RepoColumns.SqlUpdates | es-entity-macros/src/repo/options/columns.rs:202-211 | comma-joined items `name = $k+2`, one for the k-th column persisted on update after the first column, and none without columns |
| RepoColumns.UpdateQueryArgs | es-entity-macros/src/repo/options/columns.rs:213-225 | an argument is named exactly when some column persisted on update, or the id, has that name |
| RepoColumns.UpdateArgsOfPlainColumns | es-entity-macros/src/repo/options/columns.rs:213-225 | when no configured column is the id, the UPDATE binds exactly the columns persisted on update |
| RepoColumns.UpdateColumnsAfterCreatedAt | es-entity-macros/src/repo/options/columns.rs:202-211 | skipping `created_at` and then the never-updated `id` leaves the configured columns' updates |
| RepoColumns.UpdateArgsAfterId | es-entity-macros/src/repo/options/columns.rs:213-225 | the UPDATE's arguments are `id` followed by the configured columns persisted on update |
| RepoColumns.UpdatePlaceholdersMatchArgs | es-entity-macros/src/repo/options/columns.rs:202-225 | the k-th assignment's `$k+2` is bound to argument k+1, the same column; `$1` is the id; neither implicit column is assigned |
| RepoColumns.UpdatesNeededIffAssignments | es-entity-macros/src/repo/options/columns.rs:68-70 | `updates_needed` holds exactly when `sql_updates` assigns something |
| RepoColumns.AssignmentsNeedUpdates | es-entity-macros/src/repo/options/columns.rs:68-70 | an assignment exists only for a column persisted on update |
| RepoColumns.UpdatesGiveAssignments | es-entity-macros/src/repo/options/columns.rs:202-211 | behind the implicit columns every column persisted on update is assigned |
| RepoColumns.BulkSetItems | es-entity-macros/src/repo/options/columns.rs:288-295 | one `name = unnested.name` item per column, in order |
| RepoColumns.BulkSetColumns | es-entity-macros/src/repo/options/columns.rs:288-291 | exactly the columns persisted on update that are not the id |
| RepoColumns.SqlBulkUpdateSet | es-entity-macros/src/repo/options/columns.rs:288-295 | the bulk SET list is one `name = unnested.name` item per column persisted on update that is not the id, in column order, joined by `, `; it is empty exactly when there is no such column |
| RepoColumns.UpdateAllColumnNames | es-entity-macros/src/repo/options/columns.rs:297-303 | exactly the names of the columns persisted on update, and of the id |
| RepoColumns.FindListBy | es-entity-macros/src/repo/options/columns.rs:39-43 | a hit is the first list_by column of that name in the list; `None` exactly when no column has that name and is list_by |
| RepoColumns.ValidateListForByColumns | es-entity-macros/src/repo/options/columns.rs:45-62 | succeeds exactly when no error accumulates; otherwise all of them are returned together |
| RepoColumns.CheckByColumns | es-entity-macros/src/repo/options/columns.rs:48-59 | the errors of one column's `by` names, in order |
| RepoColumns.ByErrorsSound | es-entity-macros/src/repo/options/columns.rs:48-59 | every error of a column names that column and one of its `by` names that is no list_by column |
| RepoColumns.ByErrorsComplete | es-entity-macros/src/repo/options/columns.rs:48-59 | every `by` name of a column that is no list_by column is reported, listing the available list_by columns |
| RepoColumns.NoByErrors | es-entity-macros/src/repo/options/columns.rs:48-59 | a column whose `by` names all resolve adds no error |
| RepoColumns.ListForErrorsSound | es-entity-macros/src/repo/options/columns.rs:45-62 | an error is only reported for a `by` name carried by some list_for column that names no list_by column |
| RepoColumns.ListForErrorsComplete | es-entity-macros/src/repo/options/columns.rs:45-62 | every unresolved `by` name of every column is reported |
| RepoColumns.NoListForErrors | es-entity-macros/src/repo/options/columns.rs:45-62 | validation passes when every `by` reference names a list_by column |
| RepoColumns.ValidationRejectsUnknown | es-entity-macros/src/repo/options/columns.rs:815-835 | `list_for(by(nonexistent))` on `status` fails validation |
| RepoColumns.ValidationAcceptsId | es-entity-macros/src/repo/options/columns.rs:837-848 | `list_for(by(id))` passes validation, as `id` is list_by |
| RepoColumns.ListForFromWord | es-entity-macros/src/repo/options/columns.rs:665-669 | a bare `list_for` means `by(id)` |
| RepoColumns.ListForFromBool | es-entity-macros/src/repo/options/columns.rs:671-679 | `true` is a bare `list_for`; `false` is exactly the rejected case |
| RepoColumns.ListForFromList | es-entity-macros/src/repo/options/columns.rs:681-700 | an error, the `by(col1, col2, ...)` message, exactly when some item is not `by(..)`; otherwise every `by`'s names concatenated in order |
| DeleteOptions.IncludeDeletionFnPostfix | es-entity-macros/src/repo/options/delete.rs:12-17 | `_include_deleted` exactly for the soft options, empty exactly for `No` |
| DeleteOptions.NotDeletedCondition | es-entity-macros/src/repo/options/delete.rs:19-28 | ` AND deleted = FALSE` exactly when the option is soft, empty otherwise |
| DeleteOptions.IsSoft | es-entity-macros/src/repo/options/delete.rs:26-28 | soft exactly for `Soft` and `SoftWithoutQueries` |
| DeleteOptions.FromStr | es-entity-macros/src/repo/options/delete.rs:34-41 | fails exactly on a text other than the three names, with an unknown-value error carrying the text |
| DeleteOptions.FromStrRoundTrip | es-entity-macros/src/repo/options/delete.rs:4-9 | every option parses back from its name and every accepted text is an option's name |
| DeleteOptions.Default | es-entity-macros/src/repo/options/delete.rs:3-6 | the default option is not soft |
| Text.NatToString | es-entity-macros/src/repo/options/columns.rs:196 | a placeholder number is rendered as a non-empty string of decimal digits |
| Text.NatToStringRoundTrip | es-entity-macros/src/repo/options/columns.rs:196 | the rendered digits read back as the number |
| Text.NatToStringInjective | es-entity-macros/src/repo/options/columns.rs:196 | distinct numbers render as distinct placeholders |
| RepoErrors.ConstraintNames | es-entity-macros/src/repo/error_types.rs:39-45 | a column's constraint list starts with `{table}_{col}_key`, contains `{table}_pkey` when it is the id and ends with its custom constraint when it has one, and holds nothing else |
| RepoErrors.ColumnVariants | es-entity-macros/src/repo/error_types.rs:32-52 | one variant per column-enum column, in order, each with that column's constraint list |
| RepoErrors.MapConstraintColumnFirstMatch | es-entity-macros/src/repo/error_types.rs:127-149 | the mapped column is the first column whose list names the constraint; the result is `None` exactly when no column names it or there is no constraint name |
| RepoErrors.MapConstraintColumn | es-entity-macros/src/repo/error_types.rs:127-149 | a mapped column has an arm naming the given constraint |
| RepoErrors.PrimaryKeyMapsToId | es-entity-macros/src/repo/error_types.rs:39-42 | both `{table}_pkey` and the id's unique-key constraint map to the id column when it comes first |
| RepoErrors.CreateRoot | es-entity-macros/src/repo/error_types.rs:157-165 | taking off every nested wrapper of a create error leaves a non-nested error |
| RepoErrors.ModifyRoot | es-entity-macros/src/repo/error_types.rs:294-308 | taking off every nested wrapper of a modify error leaves a non-nested modify or create error |
| RepoErrors.CreateConcurrentModificationIsRoot | es-entity-macros/src/repo/error_types.rs:265-272 | `was_concurrent_modification` holds exactly when the innermost error is a concurrent modification |
| RepoErrors.ModifyConcurrentModificationIsRoot | es-entity-macros/src/repo/error_types.rs:438-445 | the same for modify errors, whose nested children may be modify or create errors |
| RepoErrors.CreateDuplicateValue | es-entity-macros/src/repo/error_types.rs:278-283 | a value exactly for a constraint violation that carries one, and it is that value |
| RepoErrors.ModifyDuplicateValue | es-entity-macros/src/repo/error_types.rs:451-456 | a value exactly for a constraint violation that carries one, and it is that value |
| RepoErrors.DuplicateIsNotConcurrentModification | es-entity-macros/src/repo/error_types.rs:265-276 | a duplicate is never a concurrent modification, and an error is a duplicate on at most one column |
| RepoErrors.DuplicateOnMappedColumn | es-entity-macros/src/repo/error_types.rs:274-276 | a violation built from a constraint is a duplicate on a column exactly when that column is the first whose constraint list names the constraint, for create and modify errors alike |
| RepoErrors.FindErrorFromQuery | es-entity-macros/src/repo/error_types.rs:507-521 | a database or hydration query error becomes the same find error, which is never a not-found; the cursor error is excluded as the code excludes it |
| RepoErrors.ModifyNestedVariantNames | es-entity-macros/src/repo/error_types.rs:294-308 | each nested child gives a `…Modify` then a `…Create` variant, two per child in order |
| ComboCursors.Tag | es-entity-macros/src/repo/combo_cursor.rs:34-37 | the variant name is `By` followed by the column name |
| ComboCursors.TagInjective | es-entity-macros/src/repo/combo_cursor.rs:34-37 | different columns give different variant names |
| ComboCursors.Variants | es-entity-macros/src/repo/combo_cursor.rs:39-55 | one variant per cursor, in order, each tagged by its column and holding its cursor type |
| ComboCursors.UsersCursorVariants | es-entity-macros/src/repo/combo_cursor.rs:236-240 | cursors on `id` and `name` give the variants `Byid(UsersByIdCursor)` and `Byname(UsersByNameCursor)` |
| ComboCursors.From | es-entity-macros/src/repo/combo_cursor.rs:67-71 | wrapping a column cursor tags it with its column's variant and keeps it unchanged |
| ComboCursors.TryFrom | es-entity-macros/src/repo/combo_cursor.rs:73-82 | unwrapping succeeds exactly when the combined cursor holds the wanted column's variant |
| ComboCursors.FromTryFromRoundTrip | es-entity-macros/src/repo/combo_cursor.rs:67-82 | wrapping then unwrapping as the same cursor type gives the cursor back |
| ComboCursors.TryFromWrongVariant | es-entity-macros/src/repo/combo_cursor.rs:79 | unwrapping another column's cursor fails with a destructure error naming the combined type and the wanted type |
| ComboCursors.SortBy | es-entity-macros/src/repo/combo_cursor.rs:100-121 | one sort variant per cursor column, in order, and exactly the first is the default |
| ListForFilters.WhereClauseFragment | es-entity-macros/src/repo/list_for_filters_fn.rs:47-51 | a filter fragment is `COALESCE(`, the column, ` = `, `$idx`, `, `, `$idx` again and ` IS NULL)`, in that order and nothing else |
| ListForFilters.WhereFragments | es-entity-macros/src/repo/list_for_filters_fn.rs:286-294 | one fragment per filter column, the column at position i bound to parameter `$i+1` |
| ListForFilters.FilterWhere | es-entity-macros/src/repo/list_for_filters_fn.rs:296-300 | the filter part is empty exactly when there are no filter columns; otherwise it is the fragments `COALESCE(col = $i, $i IS NULL)`, the i-th column at `$i`, joined by ` AND `, followed by one more ` AND ` |
| ListForFilters.LimitParam | es-entity-macros/src/repo/list_for_filters_fn.rs:320 | the LIMIT parameter number is above every filter parameter number |
| ListForFilters.FilterParamsAvoidLimit | es-entity-macros/src/repo/list_for_filters_fn.rs:286-320 | no filter parameter is written like the LIMIT parameter |
| ListForFilters.FiltersQuery | es-entity-macros/src/repo/list_for_filters_fn.rs:309-335 | each direction's query is `SELECT cols FROM table WHERE `, the filter conditions, the cursor condition in parentheses, ` AND deleted = FALSE` exactly for the not-deleted variant of a soft-deleting repository, ` ORDER BY ` with the ordering, and ` LIMIT $n+1` for n filters |
| ListForFilters.DeletedFilter | es-entity-macros/src/repo/list_for_filters_fn.rs:315-319 | the deleted condition is ` AND deleted = FALSE` exactly for the not-deleted variant of a soft-deleting repository, and empty otherwise |
| ListForFilters.SelectWhere | es-entity-macros/src/repo/list_for_filters_fn.rs:309-321 | the query template filled in: each of its six parts can be cut back out of the text at its place |
| ListForFilters.OrdersFilterWhere | es-entity-macros/src/repo/list_for_filters_fn.rs:738 | filters on `customer_id` and `status` give the two `COALESCE` conditions at `$1` and `$2`, each followed by ` AND ` |
| ListForFilters.OrdersFiltersQuery | es-entity-macros/src/repo/list_for_filters_fn.rs:738 | the ascending query the source's test expects for `orders` filtered by customer and status, with the cursor at `$4` and the limit at `$3` |
| ListForFilters.PairedColumns | es-entity-macros/src/repo/list_for_filters_fn.rs:150-155 | the paired columns are filter columns, in order, that list this sort column |
| ListForFilters.PairedAll | es-entity-macros/src/repo/list_for_filters_fn.rs:199 | the paired columns are all the filter columns exactly when every filter column is paired |
| ListForFilters.OthersNoneContents | es-entity-macros/src/repo/list_for_filters_fn.rs:160-169 | a single-filter branch checks exactly the filter columns with other names |
| ListForFilters.SingleBranches | es-entity-macros/src/repo/list_for_filters_fn.rs:157-193 | one single-filter branch per paired column, in order, calling `list_for_{col}_by_{sort}` after checking the others are unset |
| ListForFilters.GenerateProxyBody | es-entity-macros/src/repo/list_for_filters_fn.rs:128-139 | without filter columns the body is the direct `list_by_{sort}` call, and only then |
| ListForFilters.FallbackWhenNeeded | es-entity-macros/src/repo/list_for_filters_fn.rs:195-215 | the combined `list_for_filters_by_{sort}` fallback is generated exactly when a filter column is unpaired or there are two or more |
| ListForFilters.SinglesArePaired | es-entity-macros/src/repo/list_for_filters_fn.rs:150-193 | every single-filter branch belongs to a paired filter column |
| ListForFilters.FirstFiring | es-entity-macros/src/repo/list_for_filters_fn.rs:157-193 | the if-chain takes a single-filter branch exactly when one branch's others-unset check holds, and then the call of such a branch |
| ListForFilters.OthersNoneUnset | es-entity-macros/src/repo/list_for_filters_fn.rs:160-169 | a single-filter branch fires exactly when no filter column, other than its own, is set |
| ListForFilters.NoFilterSetCallsListBy | es-entity-macros/src/repo/list_for_filters_fn.rs:216-218 | with no filter set, the dispatcher calls `list_by_{sort}` |
| ListForFilters.OnePairedFilterCallsListForOne | es-entity-macros/src/repo/list_for_filters_fn.rs:179-191 | with only one paired filter set, the dispatcher calls that column's own query |
| ListForFilters.OtherwiseCallsListForFilters | es-entity-macros/src/repo/list_for_filters_fn.rs:195-212 | with any other combination of set filters, the dispatcher calls the combined query |
| ListForFilters.CombinedFallbackPresent | es-entity-macros/src/repo/list_for_filters_fn.rs:199-212 | when some filter is set and no paired column is the only one set, the combined fallback exists |
| ListForFilters.ChainFallsThrough | es-entity-macros/src/repo/list_for_filters_fn.rs:214-220 | when some filter is set and no single branch fires, the chain takes its final `else` |
| ListForFilters.NoSingleFires | es-entity-macros/src/repo/list_for_filters_fn.rs:157-193 | no single branch fires unless its column is the only one set |
| ListForFilters.DispatchAlwaysCalls | es-entity-macros/src/repo/list_for_filters_fn.rs:128-221 | every combination of set filters reaches some call, so the chain never lacks a final `else` |
| ListForFilters.UnpairedColumnExample | es-entity-macros/src/repo/list_for_filters_fn.rs:884-949 | with `customer_id` paired to `id` and `status` not, sorting by id has one branch, for `customer_id`, and the combined fallback |
| FindBy.FindQuery | es-entity-macros/src/repo/find_by_fn.rs:75-84 | the `_include_deleted` variant selects by the column alone; the default variant adds ` AND deleted = FALSE` exactly when the repository deletes softly |
| FindBy.MakeFindFn | es-entity-macros/src/repo/find_by_fn.rs:55-84 | the name is the prefix, `find_by_`, the column and the variant's suffix; the `_in_op` form adds `_in_op`; the query is the variant's; `fetch_one` exactly without the `maybe_` prefix |
| FindBy.Variants | es-entity-macros/src/repo/find_by_fn.rs:159-163 | each prefix gets the default variant first and at most the `_include_deleted` variant after it |
| FindBy.FnsFor | es-entity-macros/src/repo/find_by_fn.rs:55-163 | one function pair per variant, in order |
| FindBy.Generated | es-entity-macros/src/repo/find_by_fn.rs:48-165 | the plain then the `maybe_` prefix, each with all its variants |
| FindBy.Generate | es-entity-macros/src/repo/find_by_fn.rs:48-165 | the nested loops emit exactly the reference list of functions |
| FindBy.GenerateVariants | es-entity-macros/src/repo/find_by_fn.rs:55-163 | the inner loop, with its `break`, emits exactly the variants of the reference table for one prefix |
| FindBy.VariantsTable | es-entity-macros/src/repo/find_by_fn.rs:159-163 | option `No`, or `Soft` without include queries, gives the default variant only; `Soft` with include queries also gives `_include_deleted` |
| FindBy.IncludeDeletedHasNoFilter | es-entity-macros/src/repo/find_by_fn.rs:56-84 | the `_include_deleted` function carries that suffix and never filters deleted rows; the default one has no suffix |
| FindBy.DefaultVariantFns | es-entity-macros/src/repo/find_by_fn.rs:48-84 | the plain default function uses `fetch_one` and the `maybe_` one `fetch_optional` |
| FindBy.SingleVariantFns | es-entity-macros/src/repo/find_by_fn.rs:48-163 | with one variant, exactly the plain and the `maybe_` default functions are generated |
| FindBy.FindByIdExample | es-entity-macros/src/repo/find_by_fn.rs:175-257 | an id column of table `entities` with option `No` gives `find_by_id` and `maybe_find_by_id` on `SELECT id FROM entities WHERE id = $1` |
| FindBy.PlainQuery | es-entity-macros/src/repo/find_by_fn.rs:217 | the query text of that example |
| FindBy.SoftDeleteExample | es-entity-macros/src/repo/find_by_fn.rs:348-431 | with `Soft` and no include queries, the same two functions query with ` AND deleted = FALSE` |
| FindBy.SoftQuery | es-entity-macros/src/repo/find_by_fn.rs:390 | the query text of that example |
| FindBy.IncludeDeletedExample | es-entity-macros/src/repo/find_by_fn.rs:433-458 | with include queries, `find_by_id_include_deleted` and `maybe_find_by_id_include_deleted` are generated |
| EventStore.Sequence | es-entity-macros/src/repo/persist_events_fn.rs:98 | every new event's sequence number lies above the persisted count |
| EventStore.AppendRowsContents | es-entity-macros/src/repo/persist_events_fn.rs:90-106 | the copied rows hold the new events in order under sequence numbers `offset+1 ..` and leave every other row as it was |
| EventStore.PersistKeepsCurrent | es-entity-macros/src/repo/persist_events_fn.rs:76-115 | an entity whose persisted events are exactly the table's rows for it causes no key clash, and after persisting, the table holds exactly its events, all marked persisted |
| EventStore.StaleCopyConflicts | es-entity-macros/src/repo/persist_events_fn.rs:84-109 | a copy loaded before another writer appended events clashes on the primary key when persisted |
| EventStore.ExtractConcurrentModification | es-entity-macros/src/repo/persist_events_fn.rs:58-66 | success passes through; a unique violation becomes a concurrent modification and any other database error stays a database error |
| EventStore.Op.StageRows | es-entity-macros/src/repo/persist_events_fn.rs:90-108 | the COPY loop buffers exactly the rows of the new events and reports whether any key is already taken |
| EventStore.Op.PersistEvents | es-entity-macros/src/repo/persist_events_fn.rs:68-116 | no new events returns 0 and writes nothing; a database outage or a key clash fails with the table unchanged; otherwise the rows are added with the events marked persisted and their count returned |
| RepoWrites.CreateQuery | es-entity-macros/src/repo/create_fn.rs:59-65 | the INSERT is `INSERT INTO table (`, the n create-persisted column names joined by commas, `, created_at) VALUES (`, their placeholders `$1 .. $n`, then `created_at` bound to `$n+1` with `NOW()` as its fallback |
| RepoWrites.InsertInto | es-entity-macros/src/repo/create_fn.rs:59-65 | the INSERT template filled in: each of its five parts can be cut back out of the text at its place |
| RepoWrites.IdOnlyInsertColumns | es-entity-macros/src/repo/create_fn.rs:234 | with only the id configured, the INSERT writes the id alone, at `$1` |
| RepoWrites.IdOnlyCreateQueryIsInsert | es-entity-macros/src/repo/create_fn.rs:234 | with only the id configured, the template gets the id column, `$1`, and `created_at` at `$2` |
| RepoWrites.IdOnlyInsertText | es-entity-macros/src/repo/create_fn.rs:60 | the template filled with `entities`, `id`, `$1` and `$2` reads as that expected text |
| RepoWrites.IdOnlyCreateQuery | es-entity-macros/src/repo/create_fn.rs:234 | the INSERT the source's test expects for an `entities` table with only the id configured |
| RepoWrites.CreatePlaceholdersMatchColumns | es-entity-macros/src/repo/create_fn.rs:55-65 | the INSERT binds `$1 .. $n` one to each create-persisted column, and none of them is the `created_at` parameter |
| RepoWrites.UpdateQuery | es-entity-macros/src/repo/update_fn.rs:53-56 | `UPDATE` of the table, then `SET` with exactly the `sql_updates` assignments, then `WHERE id = $1` at the end |
| RepoWrites.DeleteQuery | es-entity-macros/src/repo/delete_fn.rs:47-52 | the soft delete sets the update columns and then `deleted = TRUE`, with a comma only when there are update columns |
| RepoWrites.InsertViolation | es-entity-macros/src/repo/create_fn.rs:133-148 | a taken id violates `{table}_pkey`; the INSERT violates nothing exactly when the id is free and no unique column that the INSERT writes has a taken value; a reported violation names such a column |
| RepoWrites.InsertKeepsUnique | es-entity-macros/src/repo/create_fn.rs:133-148 | on a table whose unique keys hold, an INSERT with a free id is refused exactly when adding its row would make two rows share a unique value; an accepted INSERT keeps the keys |
| RepoWrites.UpdateViolation | es-entity-macros/src/repo/update_fn.rs:53-65 | the UPDATE violates a key exactly when the row exists and another row holds one of its new unique values; the key named is `{table}_{col}_key` of such a column |
| RepoWrites.UpdateKeepsUnique | es-entity-macros/src/repo/update_fn.rs:53-65 | on a table whose unique keys hold, the UPDATE is refused exactly when writing it would make two rows share a unique value |
| RepoWrites.FirstDuplicated | es-entity-macros/src/repo/update_all_fn.rs:63-91 | `None` exactly when the unique keys hold; otherwise a unique column in which two rows share a value |
| RepoWrites.UpdateRow | es-entity-macros/src/repo/update_fn.rs:53-65 | `WHERE id = $1` changes at most the row with that id, overwriting the assigned columns, and no row is added or removed |
| RepoWrites.PersistToCreate | es-entity-macros/src/repo/error_types.rs:245-255 | a persist failure becomes a create error that is a concurrent modification exactly when the failure was one |
| RepoWrites.PersistToModify | es-entity-macros/src/repo/error_types.rs:424-435 | the same for modify errors |
| RepoWrites.CreateInsertError | es-entity-macros/src/repo/create_fn.rs:133-148 | a database failure is `Sqlx`; a unique violation is `ConstraintViolation` without a value; the INSERT succeeds exactly when neither happens |
| RepoWrites.DuplicateIdIsConstraintViolationOnId | es-entity-macros/src/repo/create_fn.rs:140-146 | creating an entity whose id is taken fails as a duplicate on the id column |
| RepoWrites.CreateInOp | es-entity-macros/src/repo/create_fn.rs:121-162 | a failed INSERT writes nothing; otherwise the index row is added, the events are copied from sequence 1 on (a clash is a concurrent modification), and the result is the hydrated entity with all its events persisted unless hydration or a nested child fails; unique keys that held still hold |
| RepoWrites.UpdateInOp | es-entity-macros/src/repo/update_fn.rs:115-145 | nested children first; without new events nothing is written and 0 is returned; otherwise, when some column persists on update, an UPDATE that would break a unique key fails as `Sqlx` with nothing written, else the index row is updated; then the events are appended and their count returned, or a clash fails as a concurrent modification; unique keys that held still hold |
| RepoWrites.DeleteInOp | es-entity-macros/src/repo/delete_fn.rs:90-128 | an UPDATE that would break a unique key fails as `Sqlx` with nothing written; otherwise the row keeps its place, gets the update columns and `deleted = TRUE`, and new events are persisted only when there are some; unique keys that held still hold |
| RepoWrites.Database.Begin | es-entity-macros/src/repo/begin.rs:11-13 | a new transaction sees the committed tables |
| RepoWrites.Database.Commit | es-entity-macros/src/repo/create_fn.rs:116 | committing makes the transaction's tables the committed state |
| RepoWrites.Create | es-entity-macros/src/repo/create_fn.rs:110-118 | either every write of the create is committed and the persisted entity returned, or nothing changes; unique keys that held still hold |
| RepoWrites.Update | es-entity-macros/src/repo/update_fn.rs:104-112 | the index row and the events are committed together, or nothing changes; unique keys that held still hold |
| RepoWrites.CreateMakesCurrent | es-entity-macros/src/repo/create_fn.rs:150-151 | a fresh id causes no clash, and after the create the table holds exactly the entity's events |
| BulkUpdate.BulkIndexUpdate | es-entity-macros/src/repo/update_all_fn.rs:63-91 | the bulk UPDATE changes only existing rows, joined on id, for the entities with new events |
| BulkUpdate.MarkAll | es-entity-macros/src/repo/update_all_fn.rs:245-252 | every entity of the batch, in order, has its new events marked persisted and keeps its values |
| BulkUpdate.AppendAllWithoutNew | es-entity-macros/src/repo/update_all_fn.rs:192-223 | entities without new events add no row, clash with nothing and count for nothing |
| BulkUpdate.BatchKeepsCurrent | es-entity-macros/src/repo/update_all_fn.rs:192-238 | a batch of distinct entities that are all current clashes on no key, and afterwards each is current with all its events persisted |
| BulkUpdate.CurrentTransfers | es-entity-macros/src/repo/update_all_fn.rs:97-101 | whether an entity is current depends only on the rows under its own id |
| BulkUpdate.OthersUntouched | es-entity-macros/src/repo/update_all_fn.rs:192-238 | the rows of an entity outside the batch are neither added nor changed |
| BulkUpdate.UpdateAllInOp | es-entity-macros/src/repo/update_all_fn.rs:169-259 | an empty batch, or one without new events, returns 0 and writes nothing; a nested child's failure or a database outage fails with nothing written; a bulk UPDATE leaving two rows with one unique value fails as `Sqlx` with nothing written; a clash is a concurrent modification; otherwise every new event is inserted, every entity's events are marked persisted and the total count is returned; unique keys that held still hold |
| BulkUpdate.StageBatch | es-entity-macros/src/repo/update_all_fn.rs:192-219 | the collecting loop skips entities without new events and stages exactly the reference rows, noting any clash |
| BulkUpdate.MarkBatch | es-entity-macros/src/repo/update_all_fn.rs:245-254 | the final loop marks every entity and counts exactly the batch's new events |
| Events.EntityEvents.Push | tests/entities/user.rs:37 | pushing appends the event to the full history as a new event and keeps the persisted ones |
| Events.EntityEvents.MarkPersisted | es-entity-macros/src/repo/persist_events_fn.rs:111-115 | marking keeps the full history, leaves nothing new and grows the persisted count by the number of new events |
| Events.Init | tests/entities/user.rs:74-83 | a new history holds the given events, none persisted, and has new events exactly when some were given |
| Idempotency.WasAlreadyApplied | src/idempotent.rs:55-58 | true exactly for `AlreadyApplied` |
| Idempotency.DidExecute | src/idempotent.rs:60-63 | always the negation of `was_already_applied` |
| Idempotency.Unwrap | src/idempotent.rs:65-71 | the payload of an executed outcome; the panicking case is excluded |
| Idempotency.FromAlreadyApplied | src/idempotent.rs:91-96 | the outcome built for a skipped mutation is already applied and did not execute |
| Idempotency.ResultFromAlreadyApplied | src/idempotent.rs:98-103 | for the `Result` form, an `Ok` holding an already-applied outcome |
| Idempotency.ExactlyOneOutcome | src/idempotent.rs:47-71 | exactly one of the two predicates holds, and unwrapping an executed outcome gives its payload |
| IdempotencyGuard.Guard | src/macros.rs:3-12 | the mutation is skipped exactly when some event matches a duplicate pattern |
| IdempotencyGuard.GuardWithBreak | src/macros.rs:13-22 | the mutation is skipped exactly when some event matches a duplicate pattern before any earlier event matched the break pattern |
| IdempotencyGuard.DuplicateFirstWins | src/macros.rs:17-18 | a duplicate seen before any break match skips the mutation, on the full history and on the history cut after it |
| IdempotencyGuard.BreakFirstProceeds | src/macros.rs:18 | a break match that comes before every duplicate lets the mutation proceed |
| IdempotencyGuard.NoMatchFallsThrough | src/macros.rs:3-22 | with no duplicate at all, both forms let the mutation proceed |
| EsErrors.CursorDestructureErrorFrom | src/error.rs:44-48 | the pair's two names become the error's two fields, in order |
| EsErrors.FromEsEntityError | src/macros.rs:105-109 | the library error is wrapped unchanged in the `EsEntityError` variant |
| EsErrors.WasNotFound | src/macros.rs:95-97 | true exactly for the wrapped `NotFound` |
| EsErrors.WasConcurrentModification | src/macros.rs:98-103 | true exactly for the wrapped `ConcurrentModification` |
| EsErrors.PredicatesAfterFrom | src/macros.rs:92-111 | after conversion each predicate answers for the library error; the two never both hold, and neither holds of an application-specific error |
| UserEntity.SkipNeutralHead | tests/entities/user.rs:30-34 | an event that matches neither the duplicate nor the break pattern does not change the guard's verdict |
| UserEntity.RenameIgnoredIffLastRename | tests/entities/user.rs:28-40 | the guard of `update_name` skips the rename exactly when the latest rename already set that name |
| UserEntity.RenameTwiceIgnored | tests/entities/user.rs:28-40 | the same rename twice in a row: the second is skipped |
| UserEntity.RenameBackExecutes | tests/entities/user.rs:28-40 | renaming to a name used before, since replaced, executes |
| UserEntity.RenameToInitialNameExecutes | tests/entities/user.rs:30-34 | renaming to the creation name executes, since only renames are checked |
| UserEntity.TryFromEvents | tests/entities/user.rs:43-58 | the builder loop hydrates exactly what the fold of the history gives |
| UserEntity.HydrationNeedsInitialized | tests/entities/user.rs:43-58 | a history of renames only fails to hydrate with the id missing |
| UserEntity.LastRenameWins | tests/entities/user.rs:51-53 | after one more rename, hydration gives the same user with the new name |
| UserEntity.IntoEvents | tests/entities/user.rs:74-84 | a new user becomes one `Initialized` event with its id and name |
| UserEntity.NewUserRoundTrip | tests/entities/user.rs:43-84 | hydrating a new user's events gives back its id and name |
| UserEntity.User.UpdateName | tests/entities/user.rs:28-40 | skipped, with nothing changed, exactly when the latest rename set the name; otherwise the name is set and one rename event is pushed; the id never changes |
| CustomerEntity.TryFromEvents | tests/entities/customer.rs:56-83 | the builder loop hydrates exactly what the fold of the history gives |
| CustomerEntity.FoldStep | tests/entities/customer.rs:59-80 | folding one more event applies exactly that event's arm |
| CustomerEntity.ForgottenInitialName | tests/entities/customer.rs:61-70 | a forgotten creation name hydrates as `[forgotten]` |
| CustomerEntity.RenameArm | tests/entities/customer.rs:71-75 | a forgotten rename keeps the hydrated name; a set one replaces it |
| CustomerEntity.EmailArm | tests/entities/customer.rs:76-78 | an email update sets the email whatever the names are |
| CustomerEntity.ForgetAll | es-entity-macros/src/repo/forget_fn.rs:67-69 | forgetting rewrites every event of the history, one for one, with its forgettable fields erased |
| CustomerEntity.ForgetFold | tests/entities/customer.rs:59-80 | forgetting keeps the id and email, and once initialized the name is `[forgotten]` |
| CustomerEntity.ForgetApply | tests/entities/customer.rs:59-80 | one event, forgotten or not, drives the two builders in step |
| CustomerEntity.ForgetHydrates | tests/entities/customer.rs:56-83 | after forgetting, a customer that hydrated still hydrates, with the name `[forgotten]` and everything else as before |
| CustomerEntity.IntoEvents | tests/entities/customer.rs:101-112 | a new customer becomes one `Initialized` event with its name set |
| CustomerEntity.NewCustomerRoundTrip | tests/entities/customer.rs:56-112 | hydrating a new customer's events gives back its fields |
| CustomerEntity.Customer.UpdateName | tests/entities/customer.rs:38-45 | always executes: the name is set, one rename event is pushed and the other fields stay |
| CustomerEntity.Customer.UpdateEmail | tests/entities/customer.rs:47-53 | always executes: the email is set, one email event is pushed and the other fields stay |
| Forgetting.Value | src/forgettable.rs:42-55 | a value exactly when the field is set, and then the set value |
| Forgetting.SetXorForgotten | src/forgettable.rs:58-65 | `is_set` and `is_forgotten` are each other's negation, and forgotten means no value |
| Forgetting.Serialize | src/forgettable.rs:68-75 | a set value serializes as itself, a forgotten one as `null` |
| Forgetting.Deserialize | src/forgettable.rs:77-85 | `null` deserializes as forgotten and any other value as set to it |
| Forgetting.SerdeRoundTrip | src/forgettable.rs:137-162 | serializing then deserializing gives the field back exactly unless it is set to `null`; deserializing then serializing gives the JSON back |
| Forgetting.Erased | src/forgettable.rs:101-109 | extraction keeps the object's keys and leaves unlisted fields alone |
| Forgetting.Payload | src/forgettable.rs:101-109 | the payload holds exactly the listed fields that were present and not `null` |
| Forgetting.ExtractForgettablePayload | src/forgettable.rs:92-115 | the extraction loop computes exactly the reference event and payload |
| Forgetting.ErasesNext | src/forgettable.rs:102-108 | one more listed name whose field is present and not `null` is erased and copied to the payload |
| Forgetting.KeepsNext | src/forgettable.rs:102-104 | one more listed name whose field is absent or `null` changes nothing |
| Forgetting.InjectForgettablePayload | src/forgettable.rs:123-130 | the injection loop computes exactly the reference merge, each payload key overwriting the event's field |
| Forgetting.InjectAfterExtract | src/forgettable.rs:87-130 | injecting the extracted payload restores the event; without a payload the event was not changed |
| Forgetting.ExtractErasesListed | src/forgettable.rs:199-215 | a listed non-null field is `null` afterwards and in the payload with its old value |
| Forgetting.ExtractNothingToErase | src/forgettable.rs:95-97 | with nothing listed present and non-null, there is no payload |
| NestedContainer.LoadAllContents | src/nested.rs:100-107 | loading adds exactly the loaded ids; each maps to the last loaded item with that id, other ids keep their children |
| NestedContainer.LoadedCount | src/nested.rs:100-107 | loaded into an empty container, the persisted count is the number of distinct ids |
| NestedContainer.Nested.constructor | src/nested.rs:12-19 | a new container holds no persisted and no new children |
| NestedContainer.Nested.GetPersisted | src/nested.rs:50-52 | a child exactly for a held id, and then the child under it |
| NestedContainer.Nested.AddNew | src/nested.rs:22-26 | the new child is appended and returned; persisted children are untouched |
| NestedContainer.Nested.FindNew | src/nested.rs:32-37 | the first new child, in insertion order, that satisfies the predicate; none exactly when none does |
| NestedContainer.Nested.FindMapNew | src/nested.rs:39-44 | the first `Some` the function gives over the new children, in order; none exactly when it gives none |
| NestedContainer.Nested.FindPersisted | src/nested.rs:61-66 | some persisted child satisfying the predicate; none exactly when no child does |
| NestedContainer.Nested.DrainNew | src/nested.rs:46-48 | the new children are handed over in order and none are left |
| NestedContainer.Nested.Load | src/nested.rs:100-107 | the persisted map becomes the reference load of the items; new children are untouched |
| NestedContainer.Nested.SetPersisted | src/nested.rs:54-59 | writing through `get_persisted_mut` replaces that one child only |
| NestedOps.UpdateChildrenSpec | es-entity-macros/src/repo/nested.rs:58-61 | the update loop keeps the ids; it fails exactly when some child's update fails, with the first failure in loop order, and otherwise every child becomes its updated self |
| NestedOps.CreateNested | es-entity-macros/src/repo/nested.rs:35-50 | with no new children nothing happens; otherwise they are drained and, when the child repository creates them, loaded as persisted children; on failure that error is returned |
| NestedOps.UpdateNested | es-entity-macros/src/repo/nested.rs:52-64 | every persisted child is updated first; the first failure is returned; then the new children are created as `CreateNested` does |
| NestedOps.UpdateChildrenStops | es-entity-macros/src/repo/nested.rs:59-61 | once the loop has met an error, the remaining children are left as they are |
| NestedOps.ParentLookup | es-entity-macros/src/repo/nested.rs:73 | the lookup holds exactly the parents' ids, each mapping to a position with that id |
| NestedOps.ParentLookupReachesAll | es-entity-macros/src/repo/nested.rs:73-74 | with distinct parent ids, every parent is reached at its own position |
| CommitHooks.DefaultMerge | src/operation/hooks.rs:149-154 | the default `merge` declines and changes neither hook |
| CommitHooks.AppendingMerge | tests/hooks.rs:82-85 | an appending `merge` accepts and leaves the last hook with its type and its own data followed by the other's |
| CommitHooks.DefaultPreCommit | src/operation/hooks.rs:137-142 | the default `pre_commit` succeeds and hands the hook on unchanged |
| CommitHooks.PassThroughKeepsHooks | src/operation/hooks.rs:137-142 | when every `pre_commit` hands its hook on unchanged, as the default does, the pass succeeds and the hooks run after commit are exactly the registered ones |
| CommitHooks.Datas | src/operation/hooks.rs:311-315 | one post-commit record per hook, in list order |
| CommitHooks.RunPreSucceeds | src/operation/hooks.rs:288-294 | the pre-commit pass succeeds exactly when every hook's `pre_commit` does |
| CommitHooks.RunPreRunsAll | src/operation/hooks.rs:288-294 | a successful pass shows every hook to the operation once, in order, and collects in the same order the hook each `pre_commit` returned |
| CommitHooks.RunPreFirstFailure | src/operation/hooks.rs:290 | a failed pass fails with the error of the first failing `pre_commit`, every earlier one having succeeded |
| CommitHooks.NoMergeKeepsAll | src/operation/hooks.rs:266-279 | without merging, hooks of one type are all kept, in the order added |
| CommitHooks.ThreeUnmergedHooksRunSeparately | tests/hooks.rs:138-166 | three non-merging hooks of one type whose `pre_commit` hands them on give three pre-commit calls and three hooks for post-commit |
| CommitHooks.MergedHooksRunOnce | tests/hooks.rs:89-114 | two appending hooks with `["e1"]` and `["e2", "e3"]` become one hook that runs once before and once after commit with `["e1", "e2", "e3"]` |
| CommitHooks.ExecutePost | src/operation/hooks.rs:310-316 | every post-commit hook runs, in order |
| CommitHooks.RunPreAppend | src/operation/hooks.rs:288-294 | the pass over two lists is the pass over the first, then, if that succeeded, over the second |
| CommitHooks.PreCommitGroup | src/operation/hooks.rs:289-293 | the inner loop over one type's hooks computes exactly the reference pass |
| CommitHooks.CommitHooksRegistry.constructor | src/operation/hooks.rs:260-264 | a new registry holds no hooks |
| CommitHooks.CommitHooksRegistry.Add | src/operation/hooks.rs:266-279 | the hook is offered to the last hook of its type; when `merge` accepts only the (possibly changed) last hook stays, otherwise both, as `merge` left them; a first hook of its type is appended; other types are untouched |
| CommitHooks.CommitHooksRegistry.ExecutePre | src/operation/hooks.rs:281-297 | the registry is drained; the pass succeeds exactly when the reference pass over the hooks, type by type in the map's order, does, and then hands on exactly the hooks the `pre_commit` calls returned; otherwise it fails with the first error |
| RetryOnConcurrentModification.AnyError | es-entity-macros/src/retry_on_concurrent_modification.rs:44 | `any_error` is false unless given |
| RetryOnConcurrentModification.MaxRetries | es-entity-macros/src/retry_on_concurrent_modification.rs:100 | `max_retries` is 3 unless given |
| RetryOnConcurrentModification.Retry | es-entity-macros/src/retry_on_concurrent_modification.rs:139-155 | with `max_retries` 0 the loop falls through to `unreachable!`; otherwise it returns the result of its last call, every earlier call having been retryable, and it stops before the limit only at a result that is not retryable |
| RetryOnConcurrentModification.CallsMade | es-entity-macros/src/retry_on_concurrent_modification.rs:143-152 | the reference count of calls lies between the first call and the limit, every earlier attempt being retryable |
| RetryOnConcurrentModification.RetryCallsDetermined | es-entity-macros/src/retry_on_concurrent_modification.rs:144-151 | the loop's observable behaviour fixes the number of calls: it is the reference count |
| RetryOnConcurrentModification.PersistentConflictUsesAllAttempts | es-entity-macros/src/retry_on_concurrent_modification.rs:143-152 | a concurrent modification on every attempt uses up all `max_retries` calls |
| RetryOnConcurrentModification.OtherErrorStopsAtOnce | es-entity-macros/src/retry_on_concurrent_modification.rs:74-88 | without `any_error`, an error that is not a concurrent modification is returned after one call |
| OperationTime.CachedOrDbTime | src/operation/with_time.rs:28-40 | the cached time first, then the artificial time, then the database's `NOW()`; it fails exactly when the database must be asked and the query fails |
| OperationTime.CachedOrTime | src/operation/with_time.rs:43-46 | the cached time if there is one, else the given time |
| OperationTime.CachedOrClockTime | src/operation/with_time.rs:51-54 | the cached time if there is one, else the clock's reading |
| OperationTime.AsOperation | src/operation/with_time.rs:61-68 | the wrapper, seen as an operation, always has a cached time, its own, and the inner operation's clock |
| OperationTime.RewrapKeepsTime | src/operation/with_time.rs:28-68 | wrapping a wrapper again, by any of the three constructors, keeps its time and never queries the database |
| OperationTime.CachedTimeWins | src/operation/with_time.rs:28-54 | whenever a time is cached, the three constructors agree on it |
| TransactionTimes.New | es-entity-time/src/transaction.rs:48-71 | a simulated clock supplies its own time on both sides with no query; a real clock pairs the database's `NOW()` with the local reading, and fails exactly when that query fails |
| TransactionTimes.FromClock | es-entity-time/src/transaction.rs:77-84 | the clock's reading on both sides, so no drift |
| TransactionTimes.FromTime | es-entity-time/src/transaction.rs:89-95 | the given time as now, drifting from the clock reading by their difference |
| TransactionTimes.Elapsed | es-entity-time/src/transaction.rs:117-119 | the clock time since the local reading |
| TransactionTimes.Now | es-entity-time/src/transaction.rs:102-104 | the transaction's time is the database's, not the local reading |
| TransactionTimes.Drift | es-entity-time/src/transaction.rs:110-112 | the local reading plus the drift is the database time; the drift is positive exactly when the local clock is behind |
| TransactionTimes.SleepDuration | es-entity-time/src/transaction.rs:125-134 | with the local clock behind, the sleep is shortened by the drift, down to zero at most; otherwise it is lengthened by the drift's size |
| TransactionTimes.SaturatingSub | es-entity-time/src/transaction.rs:129 | the difference when it is not negative, else zero |
| TransactionTimes.SleepSubtractsDrift | es-entity-time/src/transaction.rs:125-134 | both branches of the adjustment sleep for the duration less the drift, never below zero |
| TransactionTimes.SleepMonotone | es-entity-time/src/transaction.rs:125-134 | a longer requested sleep is never adjusted to a shorter one |
| TransactionTimes.NoDriftNoAdjustment | es-entity-time/src/transaction.rs:125-134 | with a simulated clock, or a time taken from the clock, the sleep is not adjusted |
| EventContexts.ContextStack.constructor | src/context/mod.rs:109-111 | a thread starts with an empty context stack and no handles |
| EventContexts.ContextStack.Current | src/context/mod.rs:184-202 | on a non-empty stack, a further handle to the top entry, the stack unchanged; on an empty one, a new empty entry with a fresh id and a single handle |
| EventContexts.ContextStack.Seed | src/context/mod.rs:223-234 | a new entry with a fresh id, holding the given data, pushed on top of whatever is below; nothing below changes |
| EventContexts.ContextStack.Push | src/context/mod.rs:227-233 | the push shared by `current` and `seed`: a fresh id, one handle, the ids kept distinct |
| EventContexts.ContextStack.Data | src/context/mod.rs:326-336 | the data of the entry the handle points to |
| EventContexts.ContextStack.Insert | src/context/mod.rs:288-307 | a serialisation error is returned and changes nothing; otherwise only the handle's own entry gets the key set, replacing any earlier value, and the handles are unchanged |
| EventContexts.ContextStack.Drop | src/context/mod.rs:152-167 | dropping one of several handles only counts it down; dropping the last removes that entry, wherever it sits in the stack |
| EventContexts.ContextStack.Fork | src/context/mod.rs:258-262 | a new top entry with a fresh id holding a copy of the current data; the temporary handle taken by `current` is gone again, so on an empty stack only the new entry is left |
| EventContexts.ContextStack.ForkFromEmpty | src/context/mod.rs:258-262 | `fork` on an empty stack: the entry `current` pushed is dropped with its handle, leaving a single empty entry |
| EventContexts.ContextStack.SeedOnEmpty | src/context/mod.rs:184-234 | the first two steps of `fork` on an empty stack: two distinct entries, both empty, one handle each |
| EventContexts.ContextStack.ForkFromTop | src/context/mod.rs:258-262 | `fork` below an existing top entry: the top's data is copied into a new entry on top, and the handle counts end as before plus the new one |
| EventContexts.PushKeepsIds | src/context/mod.rs:227-233 | pushing an entry with a fresh id keeps the stack's ids distinct and adds exactly that id |
| EventContexts.UpdateKeepsIds | src/context/mod.rs:297-299 | replacing an entry's data keeps every id, and keeps them distinct |
| EventContexts.RemoveKeepsIds | src/context/mod.rs:159-162 | removing one entry removes exactly its id and keeps the rest distinct |
| EventContexts.MapUpdates | src/context/mod.rs:258-262 | counting a handle up and back down around a fresh entry restores the count |
| EventContexts.DropTemporary | src/context/mod.rs:258-262 | dropping `fork`'s temporary handle leaves only the new entry's handle |
| EventContexts.ForkOnEmpty | src/context/mod.rs:258-262 | on an empty stack the temporary entry is at the bottom, so its removal leaves only the seeded entry |
| EventContexts.ForkIsolation | src/context/mod.rs:481-502 | the child sees the parent's data at depth 2, the child's insert does not reach the parent, and after the drop the depth is 1 and the data is the parent's |

## Left out

- Database I/O and async execution: sqlx queries, `COPY`-style batching, connection pools and `.await` are replaced by maps, `Result` parameters and sequential steps. A failing query becomes an error value passed in.
- Token emission: `quote!`, `syn` parsing, `tracing`/`instrument` spans and the exact Rust identifiers the macros emit. Only the decisions each generator makes and the SQL text it builds are modelled.
- The clock's concurrency machinery: wakers, `Mutex`, atomics, global clock handles and the yield inside `advance`. `src/clock/sleep.rs`, `src/clock/global.rs` and `src/clock/handle.rs` are not part of this model.
- Auto-advance mode of the artificial clock, which scales real elapsed time by a floating-point factor (`src/clock/artificial.rs:103-122`), and `real_duration`. `sim-time` is not part of this model.
- Time is whole milliseconds. Sub-millisecond precision and `chrono` conversions are not modelled.
- Iteration order of `HashMap`s (hook types, nested children, JSON object keys) is unspecified in the source. Where it matters it is a sequence given as input.
- JSON serialisation: `serde_json` encoding and decoding are not modelled. A context value is its serialised text, and a serialisation failure is an input `Result`.
- `OperationTime.CachedOrDbTime`: `NOW()` returning NULL panics through `expect` in the source. The model takes the database time as a value, so that panic is not represented.
- `BulkUpdate.UpdateAllInOp`: sequence numbers are unbounded integers. The `as i32` cast at `es-entity-macros/src/repo/update_all_fn.rs:216` would wrap past 2^31 - 1; that is not modelled.
- The outer `update_all` and `delete` methods, plus the `create_all`, `persist_events_batch`, `find_all`, `find_many`, `list_for`, `list_for_filter` and `list_by` generators. They repeat the begin/commit wrapper, the sequence rule and the query patterns that are modelled. They are not modelled separately.
- `post_persist_hook`, `forget` apart from its fold (`ForgetAll`), and `begin` apart from `RepoWrites.Database.Begin`. All three are thin.
- `es-entity-time`'s simulated clock, controller and handle mirror `src/clock`. Only `TransactionTime` is modelled; its clock is a reading (simulated or real).
- The older `src/context.rs` duplicates `src/context/mod.rs` and is left out. `EventContext::as_json` is left out too, because JSON is not modelled.
- The `order.rs` and `profile.rs` test entities use the same guard and fold patterns as `user.rs`.
- `EntityEvents` itself: `events.rs` is not part of this model. Only the operations the modelled code uses (`push`, `mark_new_events_persisted_at`, construction from initial events) are modelled.
- `load_n`, the query builder (`src/query.rs`, `query/mod.rs`), `one_time_executor`, the GraphQL cursor encoding (base64 JSON) and idempotency keys taken from the event context are not part of this model.
- `CustomerEntity`: the test entity builds its name with `Forgettable::new(..)` (`tests/entities/customer.rs:42`, `:107`), which `src/forgettable.rs` does not define. The model takes it to build a set value, `Set(..)`.
- `convert_case`: `ComboCursors.SortBy` uses the column names as the variant names. The UpperCamel case conversion is not applied.
- `DeleteOptions`: the repository option parser in `es-entity-macros/src/repo/options/mod.rs` is not part of this model. In `FindBy.Generate`, the soft-delete option without extra queries generates both variants because its `break` never fires. This is modelled as written.
- `NestedContainer.Nested`: `find_map_persisted`, `find_persisted_mut`, `iter_persisted` and `iter_persisted_mut` are left out. They are the same search or iteration over the persisted map as `FindPersisted` and `GetPersisted`. Mutable borrows are modelled by `SetPersisted`.
- `Idempotency.Unwrap`: requires the value to have executed. The source panics on `AlreadyApplied`, and a panic is not a value here.
- `RetryOnConcurrentModification.Retry`: with `max_retries = 0` the source reaches `unreachable!()`. The model returns `None` there.
- `BulkUpdate.UpdateAllInOp`: the bulk UPDATE's unique keys are checked once, on the rows the statement leaves. PostgreSQL checks a non-deferrable unique index row by row, so a bulk UPDATE that swaps two values can fail in the database where the model succeeds.
- `ArtificialClock.Clock.Advance`: times are unbounded integers. The `i64` arithmetic, its overflow, the truncating `duration.as_millis() as i64` cast at `src/clock/artificial.rs:213` and the `expect("valid timestamp")` panic at `src/clock/artificial.rs:95` for times outside `chrono`'s range are not modelled.
- `ArtificialClock.Clock.RegisterWake`: the wake time is an unbounded integer, so no `i64` bound or overflow applies to it.
- `CommitHooks`: a hook's `pre_commit` and `merge` are functions of the hook alone. Their access to the transaction's connection and any side effects beyond the returned values are not modelled.
- Source inconsistencies, where the generator code is followed:
  - the `persist_events` tests expect sequence `offset + idx`, but the generated code uses `offset + idx + 1`;
  - the guard macro names `FromIdempotentIgnored`, but the library defines `FromAlreadyApplied`, which the model uses;
  - `create` builds `ConstraintViolation` without a `value`;
  - the `from_es_entity_error!` macro (`src/macros.rs:96-101`) matches `EsEntityError::NotFound` and `EsEntityError::ConcurrentModification`, but `EsEntityError` is now an alias of `EntityHydrationError` (`src/error.rs:9-18`), which has neither variant. `EsErrors.EsEntityError` keeps the two variants the macro names.
