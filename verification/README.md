# Tempr: verified model

Tempr is a database IDE written in Rust. This project models the five cores of its UI-free crates and proves what
they are for. Every file holds one module; `dafny verify dfyconfig.toml` checks all of them.

- **Editor buffer** (`Utf8`, `Selection`, `EditBatch`, `Buffer`, `History`, `EditOps`, `Lines`, `LineMoves`, `MoveLines`,
  `MirrorText`). A text is a sequence of UTF-8 bytes. `Buffers.Buffer` is the class with its text, its undo and redo stacks
  of changes, the next id and the revision; a ghost timeline of whole texts says what the stacks mean. Batches are proved
  equal to one simultaneous replacement, defined offset by offset without reference to any order of application.
- **Schema refresh** (`SchemaObjects`, `FingerprintDiff`, `SchemaServer`, `SchemaRefresh`, `SchemaMoves`). The driver
  is a function of the server's rows: what a scope introspects and what markers a sweep returns. The service class keeps snapshots and scopes.
- **Catalog index** (`CatalogCache`, `PrefixSearch`). Every lookup is compared with a linear scan of the snapshot.
- **Concurrency** (`AnalysisProtocol`, `InstallProtocol`, `QueryProtocol`). Each lock section or atomic access is one
  step; the theorems hold of every interleaving of any number of calls.
- **Scopes and completion** (`SyntaxTree`, `Scopes`, `Walker`, `WalkerOrder`, `WalkerErrors`, `WalkerRanges`,
  `RelationNames`, `WalkerCatalog`, `WalkerSources`, `WalkerJustified`, `WalkerBindings`, `OutputColumns`,
  `WalkerStatements`, `FastPath`, `Identifiers`, `Fuzzy`, `Ranking`).
  The syntax tree is a datatype; the walk is the two-phase walk over it.
- **Small exact transformations** (`Placeholders`, `CatalogFile`).

`Sorting`, `Strings` and `Wrappers` hold sorting, the order of strings, and option and result types.

## What the theorems assume

- Refresh: the scope is the search path, all schemas or one schema (`SchemaRefresh.OneTableOutgrown` shows why not one
  table); sweep keys and relation names are unique on the server (`ServerOk`); the cached markers are those of the state
  the cache was in sync with; the same key with the same version is the same object, and the search path and the database
  row stay (`Drifts`). That objects also keep their schema under their key (`Evolves`) is assumed of whole runs only; one
  refresh has the exact condition, `MovesCovered`.
- `SchemaObjectId::derived` (a version 5 UUID, section 5.5 of RFC 9562) is an injective function of connection, kind and
  native id. The catalog file's serializer is any function pair in which reading undoes writing.
- Case folding and the Unicode character classes are parameters; nothing is assumed of them beyond what a member's
  `requires` says. Fuzzy match positions count characters instead of bytes.
- Atomic accesses are sequentially consistent. A run id is used for one run.
- Clause order: the positions of the nodes are kept while their order in the list changes.

The code's comment on the catalog hash speaks of FNV-1a; the multiplier in the code is `0x1000000001b3`, which is not the
64-bit FNV prime. The model follows the code. The overlap check's second condition is implied by the first one for
ranges in order; the model keeps both. The catalog cache accepts a file whose reserved flag bytes were
changed, although its documentation speaks of detecting bit rot; `CatalogFile.OneByteDiscards` is exact about this.

Three things the code does not do although its comments ask for them. A broken fragment beside a statement's set operation
is never reported (`WalkerErrors.Skipped` names all such places, `RegionAccounts` shows there are no others). A relation
that alone matches a folded name is not resolved when two schemas fold to the same name (`RelationNames.FoldedAnywhere`
gives the exact condition). An object that changed schema under its key is lost by the incremental refresh unless its new
schema is re-read too (`SchemaRefresh.SpliceIsFull` gives the exact condition, `SchemaMoves` an example).

An alias written in quotes is compared with its quotes, while a qualifier loses them, so `"U".id` does not reach
`users "U"` (`WalkerBindings.AnswersExactly` and `WalkerStatements.QuotedAliasMissed` are exact about this). A cursor that
touches the end of a range is not merged with it, although the comment in `normalize` says so
(`Selections.NormalizedMeaning`). The remembered snapshot id can name a catalog that a concurrent set has replaced
(`InstallProtocol.RememberedIsInstalled` gives the exact condition, `IgnoredThoughReplaced` an example).

## Model

| member | source | states |
|---|---|---|
| Utf8.RoundTripIffBoundary | crates/tempr_editor/src/buffer.rs:501-507 | converting a byte offset to a character index and back gives the offset exactly on character boundaries, for all valid UTF-8 |
| EditBatch.RangeError | crates/tempr_editor/src/buffer.rs:483-507 | no error exactly when the range is ordered, in bounds and on character boundaries |
| EditBatch.RangeErrorSays | crates/tempr_editor/src/buffer.rs:483-507 | which error a bad range gets: the wrong order first, then a place behind the end, then a start inside a character, then an end inside one |
| EditBatch.NeighbourCheckExact | crates/tempr_editor/src/buffer.rs:308-321 | after the sort, checking adjacent pairs accepts exactly the batches that are pairwise non-overlapping |
| EditBatch.OrderUnique | crates/tempr_editor/src/buffer.rs:300-307 | the comparison leaves only one sorted order, so the result does not depend on the sort algorithm |
| EditBatch.DescendingIsSimultaneous | crates/tempr_editor/src/buffer.rs:323-337 | applying edits highest start first equals one replacement in which every edit reads the original text |
| EditBatch.BatchIsSimultaneous | crates/tempr_editor/src/buffer.rs:290-338 | an accepted batch in any caller order is the simultaneous replacement: inserts before a replacement at the same start, same-offset inserts in caller order |
| Buffers.BatchError | crates/tempr_editor/src/buffer.rs:291-321 | a batch is refused exactly when a range is bad or two ranges overlap |
| Buffers.RefusalSays | crates/tempr_editor/src/buffer.rs:291-321 | the refusal is that of the first bad range in caller order; with no bad range it names two different edits of the batch that overlap, the earlier start first |
| Buffers.BackAgain | crates/tempr_editor/src/buffer.rs:381-384 | undoing one change at its recorded start restores the text it was applied to |
| Buffers.RecordKeeps | crates/tempr_editor/src/buffer.rs:343-350 | recording a transaction keeps both stacks consistent with a timeline of whole texts and cuts off what was undone |
| Buffers.UndoKeeps | crates/tempr_editor/src/buffer.rs:377-390 | undo moves the timeline one text back and keeps the stacks consistent with it |
| Buffers.RedoKeeps | crates/tempr_editor/src/buffer.rs:393-403 | redo moves the timeline one text forward and keeps the stacks consistent with it |
| Buffers.AcceptedIsValid | crates/tempr_editor/src/buffer.rs:290-338 | an accepted batch of valid texts leaves valid UTF-8 |
| Buffers.Buffer.constructor | crates/tempr_editor/src/buffer.rs:131-141 | a new buffer holds the text, an empty history, id 1 next, and a fresh revision |
| Buffers.Buffer.ReplaceBytes | crates/tempr_editor/src/buffer.rs:511-537 | replaces one range in place and returns exactly the removed bytes |
| Buffers.Buffer.ApplyOrdered | crates/tempr_editor/src/buffer.rs:323-337 | the loop leaves the simultaneous result and changes that lead from the old text to it, skipping what equals the text already there |
| Buffers.Buffer.EditInner | crates/tempr_editor/src/buffer.rs:285-350 | all-or-nothing: refused exactly on a bad or overlapping batch with nothing touched, `None` exactly when no replacement changes anything, else one transaction, one fresh revision, no redo |
| Buffers.Buffer.Undo | crates/tempr_editor/src/buffer.rs:377-390 | exactly the previous text of the timeline and its transaction id, or nothing at all |
| Buffers.Buffer.Redo | crates/tempr_editor/src/buffer.rs:393-403 | exactly the next text of the timeline and its transaction id, or nothing at all |
| Buffers.Buffer.UndoWithSelections | crates/tempr_editor/src/buffer.rs:354-362 | undo with the id of the reverted transaction and the cursors recorded before it, if any were |
| Buffers.Buffer.RedoWithSelections | crates/tempr_editor/src/buffer.rs:366-374 | redo with the id of the re-applied transaction and the cursors recorded after it, if any were |
| History.EveryEntryHasOrigin | crates/tempr_editor/src/buffer.rs:285-403 | in any run of edits, undos and redos every transaction is one real batch of the run, with the texts just before and just after it |
| History.UndoRestores | crates/tempr_editor/src/buffer.rs:354-390 | in any run, undo gives back exactly the text current before the transaction it reverts, which is the one that action recorded |
| History.RedoRestores | crates/tempr_editor/src/buffer.rs:366-403 | in any run, redo gives exactly the text the re-applied transaction once produced, which is the one that action recorded |
| History.UndoAfter | crates/tempr_editor/src/buffer.rs:352-390 | after any run of actions, undo hands back the text before one batch of the run, that batch's id and the cursors given as those before it, or there is nothing to undo |
| History.RedoAfter | crates/tempr_editor/src/buffer.rs:364-403 | after any run of actions, redo hands back the text one batch of the run produced, that batch's id and the cursors given as those after it, or there is nothing to redo |
| History.UndoThenRedo | crates/tempr_editor/src/buffer.rs:377-403 | any number of undos followed by as many redos changes nothing |
| History.OnlyRealEditsForget | crates/tempr_editor/src/buffer.rs:338-350 | only an accepted batch that changes the text drops redoable transactions |
| History.IdsIncrease | crates/tempr_editor/src/buffer.rs:339-341 | ids are handed out once and increase along the timeline in every run |
| History.Drive | crates/tempr_editor/src/buffer.rs:285-403 | a buffer driven through any list of actions is the timeline run of those actions |
| Selections.Normalize | crates/tempr_editor/src/selection.rs:61-86 | the in-place merge loop computes the normal form |
| Selections.NormalizedMeaning | crates/tempr_editor/src/selection.rs:61-86 | normalizing selects the same bytes, separates the ranges, keeps exactly the cursors not inside a range, and invents no endpoint |
| Selections.NormalizeIdempotent | crates/tempr_editor/src/selection.rs:61-86 | normalizing twice is normalizing once |
| Selections.SeparatedUnique | crates/tempr_editor/src/selection.rs:61-86 | a separated list is determined, up to direction, by what it selects |
| Selections.MergedDirection | crates/tempr_editor/src/selection.rs:61-86 | a range of the normal form runs backwards exactly when the first range it absorbed does: the shortest that starts there, and of equal ones the first given |
| EditOps.CursorsAfterReplacements | crates/tempr_editor/src/edit_ops.rs:258-271 | the running shift puts cursor `k` after the `k`th replacement, never below zero |
| EditOps.CursorFollowsCopy | crates/tempr_editor/src/edit_ops.rs:258-271 | right before cursor `k` stands copy `k`, and behind it what the later replacements make of the rest |
| EditOps.ReturnedCursors | crates/tempr_editor/src/edit_ops.rs:35-42 | every returned cursor follows an inserted copy and every copy is followed by a returned cursor |
| EditOps.InsertAt | crates/tempr_editor/src/edit_ops.rs:28-42 | in-bounds selections on boundaries are always accepted, never as overlapping; the text is the simultaneous replacement of the normalized ranges |
| EditOps.DeleteRanges | crates/tempr_editor/src/edit_ops.rs:240-254 | the same for deletion, with the original selections remembered for undo |
| Lines.LinesJoin | crates/tempr_editor/src/buffer.rs:415-422 | a text has one reading as lines: splitting the joined lines gives the lines back |
| LineMoves.EditsAreSwaps | crates/tempr_editor/src/edit_ops.rs:160-207 | replacing all touched groups in one batch gives the text of the exchanged lines, and no two edits touch |
| LineMoves.LineArrives | crates/tempr_editor/src/edit_ops.rs:192-207 | every line is found unchanged at its new index, its start moved by the distance recorded for its block |
| LineMoves.InversesRestore | crates/tempr_editor/src/edit_ops.rs:160-191 | exchanging the groups back restores every line |
| MoveLines.RunsExact | crates/tempr_editor/src/edit_ops.rs:287-316 | the merged blocks are the maximal stretches of touched lines |
| MoveLines.LineBlocks | crates/tempr_editor/src/edit_ops.rs:287-316 | comparing offsets merges exactly the blocks that comparing line numbers does |
| MoveLines.BlockAndNeighbour | crates/tempr_editor/src/edit_ops.rs:160-191 | a block that moves has changed places with its own neighbour |
| MoveLines.CursorsTravel | crates/tempr_editor/src/edit_ops.rs:192-207 | the lines are permuted, and every cursor stays at the same column of the same line |
| MoveLines.FoundIsLanding | crates/tempr_editor/src/edit_ops.rs:195-206 | the first delta range that holds a cursor is its own block's |
| MoveLines.DownThenUp | crates/tempr_editor/src/edit_ops.rs:152-213 | Down then Up on the returned cursors restores text and cursors, for any set of cursors, when every block moved |
| MoveLines.MoveTouched | crates/tempr_editor/src/edit_ops.rs:152-213 | never refused; the text and cursors are the moved ones, in one transaction when the text changes and in none when the exchanged lines are equal, or nothing is touched when no block can move |
| MirrorText.CommonEnds | crates/tempr_services/src/intelligence.rs:325-345 | the trimmed common ends are character boundaries of both texts and do not overlap |
| MirrorText.MiddleReplaced | crates/tempr_services/src/intelligence.rs:346-356 | replacing the middle between the common ends gives the new text |
| MirrorText.ReplaceText | crates/tempr_services/src/intelligence.rs:318-357 | at most one edit, always accepted; the buffer equals the new text for all valid UTF-8 |
| AnalysisProtocol.NextKeeps | crates/tempr_services/src/intelligence.rs:197-278 | every step of any analyze call and of any catalog swap keeps the invariant over locks, generation and catalogs |
| AnalysisProtocol.StoredMatchesInstalled | crates/tempr_services/src/intelligence.rs:197-278 | in every interleaving, while no swap is in progress, every stored analysis was built against the installed catalog from its revision's text |
| AnalysisProtocol.RevisionsAdvance | crates/tempr_services/src/intelligence.rs:268-277 | between clears a file's stored revision never goes back |
| AnalysisProtocol.CacheIsFaithful | crates/tempr_intel/src/semantic.rs:127-159 | a cache hit returns what a fresh analysis would, and the cache stays within its bound |
| AnalysisProtocol.EndsStored | crates/tempr_services/src/intelligence.rs:229-278 | in every interleaving, a call during which no swap moves the generation ends with its revision stored, or a later one |
| AnalysisProtocol.NoDeadlock | crates/tempr_services/src/intelligence.rs:197-278 | whatever has begun can go on, or waits for a lock whose holder can |
| InstallProtocol.RememberedIsInstalled | crates/tempr_services/src/intelligence.rs:179-205 | in every interleaving of installs and sets, while no install is under way, the remembered snapshot id names the installed catalog exactly when the last to replace the catalog was an install |
| InstallProtocol.IgnoredIsInstalled | crates/tempr_services/src/intelligence.rs:179-205 | as long as no install is under way while a set is between its two steps, an ignored install is of the snapshot whose catalog is installed |
| InstallProtocol.IgnoredThoughReplaced | crates/tempr_services/src/intelligence.rs:179-205 | an interleaving of one set and two installs of the same snapshot after which the second is ignored although the supplied catalog is installed |
| QueryProtocol.ActiveOrCompleted | crates/tempr_services/src/query.rs:225-261 | in every interleaving a run is never both active and completed and finishes at most once |
| QueryProtocol.CancelledExactly | crates/tempr_services/src/query.rs:162-261 | a finished run is `Cancelled` exactly when a cancel found it active or was armed in time, and then nothing was sent or a cancel took the handle |
| QueryProtocol.OutcomeExactly | crates/tempr_services/src/query.rs:226-262 | in every interleaving a completed run is cancelled exactly when it started while a cancel was armed or a cancel found it active; otherwise successful exactly when its stream ended well, and failed exactly when it got no connection or its stream failed |
| QueryProtocol.ArmedExactly | crates/tempr_services/src/query.rs:129-180 | a cancel is armed for a run exactly when one was armed and no start consumed it since, and whoever arms one has found the run neither active nor completed |
| QueryProtocol.CancelDecides | crates/tempr_services/src/query.rs:281-299 | a cancel that finds the run active decides its outcome whatever happens later |
| QueryProtocol.ArmedCancelDecides | crates/tempr_services/src/query.rs:162-185 | a cancel armed before the run starts is consumed by it and nothing is sent |
| SchemaObjects.ObjectsFromEntries | crates/tempr_services/src/schema.rs:215-355 | the two passes over the entries build the object list |
| SchemaObjects.ParentsExact | crates/tempr_services/src/schema.rs:215-260 | the parent map holds exactly the relations by (schema, name) |
| SchemaObjects.ObjectMembers | crates/tempr_services/src/schema.rs:215-355 | exactly the entries whose parent is known become objects, linked to the parent's id |
| SchemaObjects.ObjectsUnique | crates/tempr_services/src/schema.rs:215-355 | unique entry keys give one object per id |
| SchemaObjects.DatabaseFields | crates/tempr_services/src/schema.rs:225-345 | the databases among the objects are exactly the database entries, with their ids and names |
| SchemaObjects.TableFields | crates/tempr_services/src/schema.rs:225-345 | the tables are exactly the table entries, field by field |
| SchemaObjects.ViewFields | crates/tempr_services/src/schema.rs:225-345 | the views are exactly the view entries, field by field |
| SchemaObjects.FunctionFields | crates/tempr_services/src/schema.rs:225-345 | the functions are exactly the function entries, field by field |
| SchemaObjects.ColumnFields | crates/tempr_services/src/schema.rs:225-345 | the columns are exactly the column entries whose relation is in the list, field by field, with the id of the last relation of that name as parent |
| SchemaObjects.IndexFields | crates/tempr_services/src/schema.rs:225-345 | the indexes are exactly the index entries whose relation is in the list, field by field, with that parent |
| SchemaObjects.KeepsOrder | crates/tempr_services/src/schema.rs:225-345 | databases and relations come before the others, and within either the order of the entries is kept |
| SchemaServer.ScopeRows | crates/tempr_db_postgres/src/driver.rs:155-189 | what each scope introspects: the database row always, and otherwise the rows of its schemas; one table has its own row, columns and indexes, and the functions of its schema |
| SchemaServer.SweepRows | crates/tempr_db_postgres/src/driver.rs:526-596 | the sweep has one marker of the right kind, native id and version for each row in scope but the database |
| FingerprintDiff.DiffFingerprints | crates/tempr_services/src/schema.rs:373-403 | with unique keys: added, changed and dropped are exactly the new, re-versioned and missing keys, sorted and without repetition |
| SchemaRefresh.SpliceUnique | crates/tempr_services/src/schema.rs:612-639 | a splice has each id once, whatever is re-read |
| SchemaRefresh.SpliceInOrder | crates/tempr_services/src/schema.rs:612-639 | a splice keeps the survivors in the order of the cached snapshot and appends what it adds in the order it was read |
| SchemaRefresh.SpliceMembers | crates/tempr_services/src/schema.rs:612-639 | exactly the survivors and the re-read objects without a surviving namesake are in the splice |
| SchemaRefresh.ReReadObjects | crates/tempr_services/src/schema.rs:537-548 | re-reading whole schemas gives what a full introspection gives for them |
| SchemaRefresh.SpliceIsFull | crates/tempr_services/src/schema.rs:491-577 | sweep, diff and splice give each id once, and a full introspection exactly when no object left a re-read schema for one that is not re-read |
| SchemaRefresh.UnchangedIsFull | crates/tempr_services/src/schema.rs:466-471 | when no marker moved the cached snapshot already is a full introspection |
| SchemaRefresh.MovedObject | crates/tempr_services/src/schema.rs:612-639 | an object that left a re-read schema is in the splice exactly when the schema it is in now is re-read |
| SchemaRefresh.HomeIsCovered | crates/tempr_services/src/schema.rs:491-577 | objects that keep their schema meet the condition, so their splice is a full introspection |
| SchemaRefresh.OneTableOutgrown | crates/tempr_services/src/schema.rs:537-548 | with a one-table scope a splice is out of sync as soon as a re-read schema holds anything outside the scope |
| SchemaMoves.MovedTableIsLost | crates/tempr_services/src/schema.rs:466-577 | three tables, one moved to another schema: the real delta, the schema resolved from it, and a splice without the table the server has |
| SchemaMoves.LoseATable | crates/tempr_services/src/schema.rs:416-593 | the same through the service: the refresh splices and is out of sync, and the next refresh finds nothing to do |
| SchemaRefresh.SchemaService.RefreshScope | crates/tempr_services/src/schema.rs:135-198 | a full refresh stores what the server has, the next version and the scope, or changes nothing |
| SchemaRefresh.SchemaService.ResolveSchemas | crates/tempr_services/src/schema.rs:501-515 | exactly the schemas behind the changed keys, sorted, each once; unresolved exactly when one has none |
| SchemaRefresh.SchemaService.RefreshIncremental | crates/tempr_services/src/schema.rs:416-593 | the path is decided by the cache and the server alone; if the cache was in sync before, the result is in sync now exactly on every path but a splice that leaves a move uncovered |
| SchemaRefresh.SchemaService.ApplyDelta | crates/tempr_services/src/schema.rs:472-593 | each fallback is taken exactly under its condition, first condition first; a splice is in sync exactly when every move is covered |
| SchemaRefresh.Follow | crates/tempr_services/src/schema.rs:416-610 | over any run of refreshes in which objects keep their schema the held snapshot is a full introspection of the last successful moment |
| CatalogCache.FromSnapshot | crates/tempr_intel/src/catalog.rs:215-452 | the two passes fill every vector and map of the catalog of the snapshot |
| CatalogCache.ArenaHolds | crates/tempr_intel/src/catalog.rs:300-400 | the arena holds exactly the relations, functions, and columns and indexes of known relations, each once |
| CatalogCache.ByIdBijective | crates/tempr_intel/src/catalog.rs:492-494 | ids and arena slots are inverse to each other |
| CatalogCache.ColumnsTile | crates/tempr_intel/src/catalog.rs:532-540 | the ranges tile the column segment, each holding its relation's columns in ordinal order |
| CatalogCache.TiesKeepOrder | crates/tempr_intel/src/catalog.rs:360-370 | columns of one ordinal keep the snapshot's order |
| CatalogCache.OwnColumnsExact | crates/tempr_intel/src/catalog.rs:215-452 | those are all columns naming the relation as parent, each once |
| CatalogCache.BuiltIsIndexed | crates/tempr_intel/src/catalog.rs:532-540 | a slot is a column of a relation exactly when it stands in that relation's range |
| CatalogCache.ExactIsScan | crates/tempr_intel/src/catalog.rs:497-505 | the exact lookup finds an index exactly when a linear scan does |
| CatalogCache.RelationFolded | crates/tempr_intel/src/catalog.rs:507-516 | the folded lookup is the linear scan, ascending |
| CatalogCache.RelationsInSchema | crates/tempr_intel/src/catalog.rs:518-530 | whatever order the map yields, the result is the sorted linear scan of the schema |
| CatalogCache.ColumnFolded | crates/tempr_intel/src/catalog.rs:551-560 | exactly the relation's columns whose folded name matches, ascending |
| CatalogCache.ColumnExact | crates/tempr_intel/src/catalog.rs:542-549 | the first column of the relation with exactly that name |
| PrefixSearch.BlockEnds | crates/tempr_intel/src/catalog.rs:571-587 | in sorted names the matches of a prefix form one block |
| PrefixSearch.PartitionPoint | crates/tempr_intel/src/catalog.rs:571-574 | the binary search finds the first name not below the prefix |
| PrefixSearch.PrefixSearch | crates/tempr_intel/src/catalog.rs:571-587 | exactly the first `cap` matches in (name, index) order, and the flag exactly when there are more |
| PrefixSearch.SearchCatalog | crates/tempr_intel/src/catalog.rs:417-424 | on the catalog of any snapshot: the first `cap` of all relations and functions whose folded name starts with the folded prefix |
| Scopes.HitsPermute | crates/tempr_intel/src/semantic.rs:811-852 | the labels that provide a column are the same multiset in any order of the bindings |
| Scopes.ResolveBare | crates/tempr_intel/src/semantic.rs:811-852 | the loop over the levels reports what the nearest level that provides the column decides |
| Scopes.UnknownBare | crates/tempr_intel/src/semantic.rs:811-852 | a bare column is unknown exactly when no level provides it and some level has columns |
| SyntaxTree.SplitSides | crates/tempr_intel/src/semantic.rs:1145-1160 | the loop splits a set operation into sides, each starting with a select or a nested set operation |
| SyntaxTree.SidesAre | crates/tempr_intel/src/semantic.rs:1145-1170 | the sides keep every node from the first start on but keywords and parentheses, in order, and each has one start, at its head |
| Scopes.AnswerOrderFree | crates/tempr_intel/src/semantic.rs:911-924 | a qualifier's answer is independent of the order of the bindings exactly when all bindings that answer are the same |
| WalkerErrors.RegionAccounts | crates/tempr_intel/src/semantic.rs:307-470 | for any tree and any frames, at every range: syntax errors reported plus broken fragments in skipped places are all broken fragments, so none is reported twice and none is invented |
| WalkerErrors.PlainReportsAll | crates/tempr_intel/src/semantic.rs:718-756 | without CTEs and set operations every outermost broken fragment is reported exactly once, and nothing inside it |
| WalkerErrors.BehindUnionIsSilent | crates/tempr_intel/src/semantic.rs:340-375 | a broken fragment beside a statement's set operation is not reported: a concrete tree |
| WalkerErrors.RegionQuiet | crates/tempr_intel/src/semantic.rs:758-761 | without a catalog nothing but syntax errors is reported, at any depth |
| WalkerRanges.RegionNests | crates/tempr_intel/src/semantic.rs:307-535 | over an ordered tree every scope lies in its parent's range and every diagnostic in its region, at any depth |
| WalkerRanges.DocumentNests | crates/tempr_intel/src/semantic.rs:198-232 | all scopes of a document nest within it |
| WalkerRanges.ChainNarrows | crates/tempr_intel/src/analysis.rs:256-270 | each scope of the chain at an offset lies within the one before it |
| RelationNames.ResolveCatalogRelation | crates/tempr_intel/src/semantic.rs:972-1007 | the loops over the schemas compute the resolution by name |
| RelationNames.InSchema | crates/tempr_intel/src/semantic.rs:974-983 | with a schema: the exactly named relation, otherwise exactly the one relation whose folded pair matches |
| RelationNames.ExactAnywhere | crates/tempr_intel/src/semantic.rs:985-989 | without a schema: an exactly named relation, of the first schema that has one |
| RelationNames.FoldedAnywhere | crates/tempr_intel/src/semantic.rs:990-1006 | otherwise a relation is resolved exactly when it alone folds to the name and no other schema of the snapshot's relations and functions folds to its schema's name |
| RelationNames.SchemasOfSnapshot | crates/tempr_intel/src/catalog.rs:398-403 | the schema list names exactly the schemas of the snapshot's relations and functions |
| RelationNames.TwinSchemaHides | crates/tempr_intel/src/semantic.rs:990-1006 | a unique folded match is not accepted when a relation or function of the snapshot lies in another schema that folds to its schema's name |
| RelationNames.TwinSchemaExample | crates/tempr_intel/src/semantic.rs:990-1006 | the catalog of table `a.t` and function `A.f`: `T` alone folds to the table and is not resolved |
| WalkerCatalog.QualifiedColumn | crates/tempr_intel/src/semantic.rs:758-809 | over the catalog of any snapshot with at least one relation a three-part reference is judged as linear scans of the snapshot say: unknown relation, unknown column, ambiguous column, or nothing; with no relation nothing is reported |
| WalkerCatalog.UnqualifiedSource | crates/tempr_intel/src/semantic.rs:507-600 | over the catalog of any snapshot with at least one relation an unqualified source is reported exactly when its name stands for no relation, and otherwise binds that one with its columns; with no relation nothing is reported |
| WalkerCatalog.BoundColumn | crates/tempr_intel/src/semantic.rs:855-882 | a column of a bound relation passes exactly when one column of the snapshot has its folded name, or the relation has none at all |
| WalkerCatalog.ColumnsAre | crates/tempr_intel/src/semantic.rs:928-937 | the columns the walk reads of a relation are the snapshot's, in ordinal order |
| WalkerSources.RegionSound | crates/tempr_intel/src/semantic.rs:307-470 | for any tree, frames and catalog: each diagnostic of a region is what one node below it reports over the frames of one scope of the result, and every binding at every depth is a catalog relation with its columns or has local columns only |
| WalkerJustified.WalkIsJustified | crates/tempr_intel/src/semantic.rs:307-882 | over the catalog of any snapshot every diagnostic of a whole tree is justified by linear scans of the snapshot and of one scope's frames: broken fragments, names that stand for no relation, qualifiers nothing answers, columns nothing offers or several do |
| WalkerJustified.BareSays | crates/tempr_intel/src/semantic.rs:811-853 | a bare column is reported as unknown only when no level provides it and some level has columns, and as ambiguous only when the nearest level that provides it does so more than once |
| WalkerJustified.FieldExactly | crates/tempr_intel/src/semantic.rs:758-882 | over a snapshot with relations a column reference is reported exactly when it is at fault in the snapshot and its frames |
| OutputColumns.IdentifiersExact | crates/tempr_intel/src/semantic.rs:1195-1203 | the identifiers read of a name are exactly those below it outside nested subqueries and CTEs |
| OutputColumns.IdentifiersInOrder | crates/tempr_intel/src/semantic.rs:1195-1203 | in a tree whose nodes are in order they come in the order of the text |
| OutputColumns.SelectListIs | crates/tempr_intel/src/semantic.rs:1057-1080 | the columns of a query are the last identifiers of the plain-field terms of the first select expression of its first top select |
| OutputColumns.CteBindingStands | crates/tempr_intel/src/semantic.rs:1012-1055 | a CTE binds the first identifier before AS outside parentheses, with the listed columns, or else those of its body |
| OutputColumns.CteAnswers | crates/tempr_intel/src/semantic.rs:1012-1055 | a CTE answers exactly the qualifiers that fold to its name |
| WalkerBindings.AllStand | crates/tempr_intel/src/semantic.rs:464-715 | phase A binds, in document order, each relation, lateral item and statement target the clauses lead to: what its name refers to, under its alias |
| WalkerBindings.AnswersExactly | crates/tempr_intel/src/analysis.rs:130-144 | the binding of a source answers exactly the qualifiers that fold to its alias, or to its name where it has none |
| WalkerStatements.RegionBinds | crates/tempr_intel/src/semantic.rs:307-417 | a region binds one binding for each of its sources; one with a set operation leaves that to the sides |
| WalkerStatements.RegionCtes | crates/tempr_intel/src/semantic.rs:321-340 | the CTEs of a region stand for its CTE nodes, in order |
| WalkerStatements.OperationBinds | crates/tempr_intel/src/semantic.rs:340-417 | each side of a set operation is a scope below it that binds its own sources |
| WalkerStatements.QualifierReaches | crates/tempr_intel/src/semantic.rs:758-809 | in a region without CTEs a qualifier reaches the first source that answers to it |
| WalkerStatements.AliasedColumn | crates/tempr_intel/src/semantic.rs:507-586 | over the catalog of a snapshot `q.column` is not reported when the first source that answers to `q` refers to a relation with exactly one such column, also for the target of DELETE and INSERT |
| WalkerStatements.FlatRegion | crates/tempr_intel/src/semantic.rs:378-417 | a region without nested bodies reports nothing exactly when its sources' names refer to something and no column reference below it is at fault |
| WalkerStatements.FlatStatement | crates/tempr_intel/src/semantic.rs:307-882 | the same over the catalog of a snapshot, in terms of linear scans |
| WalkerOrder.RegionSimilar | crates/tempr_intel/src/semantic.rs:307-445 | a region's scope and diagnostics, at any depth, depend on the enclosing frames only up to the order of unambiguous bindings |
| WalkerOrder.ClauseOrderIrrelevant | crates/tempr_intel/src/semantic.rs:378-417 | permuting the non-CTE clauses of a statement without a set operation keeps the multisets of diagnostics, bindings and nested scopes when no two bindings answer the same qualifier |
| WalkerOrder.ResolveWithStack | crates/tempr_intel/src/semantic.rs:732-746 | the explicit stack reports what the recursive reading does |
| FastPath.AnalyzeNow | crates/tempr_intel/src/semantic.rs:198-232 | scopes of all unbroken statements in order, and all diagnostics sorted by position and severity |
| FastPath.StatementsAre | crates/tempr_intel/src/semantic.rs:198-258 | the full and the region-only analysis read the same statements: the children of the root but separators, childless tokens and broken fragments, in order |
| FastPath.AnalyzeRegionNow | crates/tempr_intel/src/semantic.rs:234-273 | exactly the statements that contain the offset and the one to fall back to, in order |
| FastPath.FastIsNear | crates/tempr_intel/src/semantic.rs:236-275 | the region-only analysis keeps exactly the statements that hold the offset, or start at or before it with no later one doing so, each once and in order |
| FastPath.ChainDescends | crates/tempr_intel/src/analysis.rs:256-270 | the chain goes down through containing scopes and stops only where no child contains the offset |
| FastPath.RegionCompletionIsFull | crates/tempr_intel/src/completion.rs:281-337 | for every tree, text and offset the region-only analysis and the full one give the same chain, fallback, statement start and completion |
| FastPath.FallbackIsNeeded | crates/tempr_intel/src/completion.rs:319-337 | without the fallback statement its bindings are lost |
| FastPath.FramesAre | crates/tempr_intel/src/completion.rs:312-348 | the frames are the scopes at the offset, innermost first, when one of them binds something; otherwise the last statement that starts at or before the offset, exactly when no semicolon separates the two |
| FastPath.OnePath | crates/tempr_intel/src/analysis.rs:246-270 | there is exactly one way down through the last containing scopes |
| FastPath.CompletionReads | crates/tempr_intel/src/completion.rs:274-290 | completion reads the text from the last statement that starts at or before the offset, or from the first byte, up to the offset |
| Identifiers.NormalizeUndoesQuote | crates/tempr_intel/src/semantic.rs:1088-1094 | normalizing a quoted name gives the name, for every string |
| Identifiers.QuotedWhenNeeded | crates/tempr_intel/src/completion.rs:1132-1141 | a name stays bare exactly when it is a plain lower-case name and no keyword; otherwise it is in quotes |
| Identifiers.OpeningQuote | crates/tempr_intel/src/completion.rs:450-470 | the backward scan over doubled quotes finds the opening quote |
| Identifiers.BackOverName | crates/tempr_intel/src/completion.rs:450-490 | reading back over a written name gives the name and where it starts |
| Identifiers.QualifierBefore | crates/tempr_intel/src/completion.rs:424-446 | the loop reads at most three parts and returns them left to right |
| Identifiers.QualifierRecovered | crates/tempr_intel/src/completion.rs:424-490 | for one to three names the path written by quoting each part is read back to the names and the start offset |
| Fuzzy.AnswerIsLeftmost | crates/tempr_domain/src/text.rs:23-72 | a match exists exactly for subsequences, and its positions are nowhere to the right of any other match |
| Fuzzy.ScoreIsBounded | crates/tempr_domain/src/text.rs:23-72 | the score lies between `2*query - candidate` and `12*query - 4` lengths |
| Fuzzy.ScoreAddsUp | crates/tempr_domain/src/text.rs:15-95 | the score is one point for each match, one more for the query's case, ten for continuing a run, six for starting a word otherwise, less one for each skipped character before the last match |
| Fuzzy.FuzzyMatch | crates/tempr_domain/src/text.rs:23-72 | the one-pass loop computes the leftmost match and its score |
| Ranking.BestIsMaximal | crates/tempr_intel/src/completion.rs:1201-1229 | each (label, kind) that matches keeps its best score |
| Ranking.FirstOfBestIsKept | crates/tempr_intel/src/completion.rs:1204-1229 | of several candidates with one (label, kind) and the best score, the first given is the one kept |
| Ranking.TopEntries | crates/tempr_intel/src/completion.rs:1231-1249 | draining the map in any order through the heap gives the best `min(200, n)` entries, sorted |
| Ranking.TopUnique | crates/tempr_intel/src/completion.rs:1231-1249 | their scores and labels, in order, do not depend on the map order or on which tied entry is evicted |
| Ranking.Rank | crates/tempr_intel/src/completion.rs:1201-1261 | the items are the best `min(200, n)` of the deduplicated matches, best first |
| Ranking.RankingUnique | crates/tempr_intel/src/completion.rs:1201-1261 | any two rankings of the same candidates show the same scores and labels in the same order |
| Ranking.WeightsDecide | crates/tempr_intel/src/completion.rs:41-50 | with labels up to 227 characters a heavier candidate outscores a lighter one however they match |
| Ranking.RankedByWeight | crates/tempr_intel/src/completion.rs:1188-1261 | in a ranking no candidate precedes a heavier one |
| Ranking.ExactCaseFirst | crates/tempr_intel/src/completion.rs:1188-1200 | of two candidates of one weight a prefix match as typed outscores a case-folded one unless it is 400 characters longer |
| Ranking.PrefixFirst | crates/tempr_intel/src/completion.rs:1188-1200 | a prefix match of up to 25 characters outscores a scattered match of the same weight that is not shorter |
| Placeholders.RenumberPreserves | crates/tempr_db_postgres/src/driver.rs:208-253 | for any query, segment count and multi-digit placeholders, the renumbered query under the concatenated binds means what the segments mean under their own |
| Placeholders.ShiftPreserves | crates/tempr_db_postgres/src/driver.rs:226-253 | a shifted segment under the whole bind list means what it meant under its own binds |
| Placeholders.JoinSplit | crates/tempr_db_postgres/src/driver.rs:209-222 | joining the segments gives the query back |
| Placeholders.ClausesAreClosed | crates/tempr_db_postgres/src/driver.rs:155-189 | the clause builders use exactly the placeholders they bind |
| Placeholders.SchemaClauseMeans | crates/tempr_db_postgres/src/driver.rs:155-189 | under its binds the clause of a schema compares the namespace name with that schema |
| Placeholders.TableClauseMeans | crates/tempr_db_postgres/src/driver.rs:155-189 | under its binds the clause of a table compares the namespace name with its schema and the relation name with the table |
| Placeholders.TableFunctionsMean | crates/tempr_db_postgres/src/driver.rs:175-189 | the clause for the functions beside a table compares the namespace name with the table's schema |
| Placeholders.SearchPathMeans | crates/tempr_db_postgres/src/driver.rs:155-173 | the clause of the search path binds nothing and always admits the schema public |
| Placeholders.AllSchemasMeans | crates/tempr_db_postgres/src/driver.rs:155-173 | the clause of all schemas binds nothing and leaves out the two system schemas |
| Placeholders.SplitJoin | crates/tempr_db_postgres/src/driver.rs:209-222 | segments without a separator that end in a character it does not have are split where they were joined |
| Placeholders.FingerprintBinds | crates/tempr_db_postgres/src/driver.rs:530-596 | for every scope and any four segment heads without placeholders and separators: the joined query splits back into the four segments, and renumbered under its assembled bind list each means what its clause says under its own binds |
| Placeholders.RenumberUnionSegments | crates/tempr_db_postgres/src/driver.rs:208-222 | the loop with the running offset is the renumbering; a wrong count leaves the query unchanged |
| CatalogFile.RoundInjective | crates/tempr_workspace/src/catalog.rs:290-291 | a hash round is injective in the state and in the byte |
| CatalogFile.OneByteChangesHash | crates/tempr_workspace/src/catalog.rs:287-294 | changing any one byte of any body changes its hash |
| CatalogFile.RoundTrip | crates/tempr_workspace/src/catalog.rs:310-347 | decoding an encoded snapshot gives it back |
| CatalogFile.OneByteDiscards | crates/tempr_workspace/src/catalog.rs:310-347 | of all single-byte changes of a file exactly those of the two reserved flag bytes go unnoticed; every other is discarded |
| CatalogFile.EncodeCatalog | crates/tempr_workspace/src/catalog.rs:310-322 | writes the file layout, or reports corruption exactly when the serializer refuses |
| CatalogFile.Header | crates/tempr_workspace/src/catalog.rs:310-322 | a file is TCAT, version 3, two zero bytes, the hash of the body with its low byte first, and the body |
| CatalogFile.RoundSays | crates/tempr_workspace/src/catalog.rs:290-291 | a round changes exactly the low eight bits, each to the sum of its bit and the bit of the byte, and multiplies by the prime modulo 2^64 |
| CatalogFile.ContentHash | crates/tempr_workspace/src/catalog.rs:287-294 | the loop computes the hash of the whole body |

## Left out

- MoveLines.MoveTouched: cursors only, within the text, and no carriage returns; selections that end at column 0 of the next line and `\r\n` breaks are not modelled.
- WalkerJustified.WalkIsJustified: says that what is reported is justified, not that every fault is reported; `WalkerStatements.FlatStatement` has both directions for statements without nested bodies, `FieldExactly` for one reference, `WalkerErrors` for syntax errors. A scope inside a region with CTEs may be read as the body of one of them.
- FastPath.RegionCompletionIsFull: what follows the frames (classification, candidate generation, ranking) is one function parameter; `Ranking` and `Identifiers` model parts of it.
- CatalogFile.RoundTrip: the wire mirror and the serializer are parameters with the round trip as a hypothesis.
- QueryProtocol.CancelDecides: the driver's own cancel and its effect on the server are not modelled, only who takes the handle.
- History.EveryEntryHasOrigin: ids are unbounded; the wrap-around of 64-bit counters is not modelled.
- Rope, syntax-tree upkeep during edits, UTF-16 conversions and the lazy reparse: libraries and caches around the text.
- `backspace`, `delete_forward`, `delete_lines`, `duplicate_lines`, `selected_text` and the cursor motions: they need a grapheme model or are batches of the same kind as those proved.
- Catalog SQL text, row decoding, connection pools, timeouts, cache file reads and writes, timestamps and random ids: input and output.
- Machine integer widths in scores and offsets, except where the hash is defined by them.
- A refresh whose connection fails between the sweep and the re-reads: one call sees one server state and one driver mode.
- Event delivery, `stop`, `cancel_all` and run listings: one loop each over what is modelled.
- Tokenizing and clause classification of the text before the cursor, and the generator of candidates: case tables without a property across functions.
- Hover cards, settings, key dispatch, palette, theme and every view: no unbounded property.
