# Asobi: the graph store and its projections

Asobi keeps a graph of entities, observations, truths and relations in one SQLite file that many
processes share. This project models that store, the triggers that keep its derived state, the task
lifecycle built on it, keyword search, and the Markdown projection, and proves what they keep.

The tables are one value (`Schema.Db`), a transaction is a list of statements run on it
(`Schema.ExecAll`: all of them, or none), and a run is any sequence of committed transactions of any
number of processes, each with its own clock reading (`Lifecycle.StateAt`). Two classes carry the
mutable state: `Tables.Database`, which writes rows one at a time and fires the triggers on each, and
`Store.SqliteStore`, one process's handle with its once-per-process sweep. Their methods are proved
against the specification functions, and the properties of whole runs are proved about those.

| files | model |
|---|---|
| `Schema`, `Tables`, `Edits` | tables, statements, cascades, triggers, the two full-text indexes, transactions; what each editing statement does |
| `Runs`, `Sweep`, `Outcomes`, `Lifecycle`, `History` | abandonment and retention, their outcome in stored rows, interleaved runs, what every run keeps |
| `Claims` | the claim protocol, statement by statement, and the atomic claim |
| `Trails`, `Requests`, `Reports`, `Store` | observation trails under a cap, the store's requests, purge reports, one process's handle |
| `Sessions`, `Caps` | runs of requests, when the observation cap holds over them, names in normal form |
| `Planning`, `Closing` | the task commands that plan and close an epic |
| `Fusion`, `Widening`, `Search`, `Graphs` | reciprocal rank fusion, widened queries, search, projections of the graph |
| `Normalize`, `Slug`, `Frontmatter`, `Pages`, `Compact`, `Sync`, `Resync`, `Topics` | names, slugs, frontmatter, what a page shows, rendering, incremental and repeated syncing, the topics of a stored graph |
| `Options`, `Lists`, `Sorting`, `Order`, `Decimals`, `TextLines` | an optional value, filtering, sorting, code-point order, numerals, lines |

Where the code differs from what one would expect, the model follows the code:

- `docs/usage.md:285` says that a query term and `--where` filters intersect.
  `Search.SearchIntersectsExactlyWhen` says when they do: a term that matches nothing returns every
  filter match.
- `docs/usage.md:276` says that ranking does not shift when more results are asked for.
  `Search.RankingStaysExactlyUpTo100` shows that this holds, over all unfiltered searches, exactly for
  limits up to 100. A filtered search is sure of it exactly when its term matches something or at most
  one entity satisfies the filters (`Search.FilteredSearchAppendsExactlyWhen`); otherwise two searches
  may list their hash sets in different orders (`Search.UnmatchedSearchesDisagree`).
- `docs/usage.md:250` says that observations are capped per entity. Adding, updating and dispatching
  trim the trail they add to (`Caps.CappedCallTrims`), but seeding a new entity and the note of an
  abandonment do not. `Caps.CapHoldsExactlyWhen` says exactly in which runs every trail stays within
  the cap, `Trails.SeedingIgnoresCap` shows a seed that does not.
- A cycle of idle tasks is never abandoned (`Sweep.CycleIsNeverAbandoned`), and an open child of any
  type protects its parent (`Sweep.SurvivesExactlyAboveLiveWork`).
- A dispatch by name does not look at the entity's type: `Claims.NamedDispatchIgnoresKind`.
- An empty selection keeps every relation: `Graphs.EmptySelectionKeepsEveryRelation`.
- A second sync of an unchanged graph does not always write nothing. A line with the key `compacted`
  after the stamp's own, from a relation type or from a truth value with line breaks, hides the stamp,
  and two entities with one slug rewrite each other's file for ever. `Resync.ResyncWritesNothing` says
  exactly when nothing is written, `Resync.PlainResyncWritesNothing` says it for plain texts by looking
  at relation types only, and `Resync.ResyncRewritesExactly` says how much is written otherwise;
  `Resync.HiderIsRewritten` and `Resync.TwinsAreRewritten` are two small graphs that never settle.
- A close follows `part_of` in both directions, so a nested epic cannot be closed before its parent is
  done, and the parent not before its child: `Closing.NestedEpicsBlockEachOther`. An epic spelled off
  its normal form counts as its own child (`Closing.ClosesExactlyWhen`).

## Model

| member | source | states |
|---|---|---|
| Normalize.NormalizeKey | crates/asobi-core/src/normalize.rs:1-26 | the loop with its three-way state and its pop computes the declarative normal form: the ASCII alphanumerics in order, and between neighbours `:` if the gap has one, else its first connector with whitespace as `-`, else nothing |
| Normalize.SeparatorIs | crates/asobi-core/src/normalize.rs:9-22 | a gap with a colon is a colon; otherwise its first hyphen, underscore, full stop or whitespace stands for it, whitespace as a hyphen |
| Normalize.CharacterClasses | crates/asobi-core/src/normalize.rs:5-25 | which characters are alphanumeric, separators, connectors and whitespace, one by one |
| Normalize.TrimIs | crates/asobi-core/src/normalize.rs:5 | trimming takes off whitespace at both ends, and all of it |
| Normalize.CanonicalKeepsAlnums | crates/asobi-core/src/normalize.rs:1-26 | no alphanumeric character is lost, added or reordered |
| Normalize.CanonicalImage | crates/asobi-core/src/normalize.rs:1-26 | normalising twice is normalising once, and the fixed points are exactly the strings that start and end alphanumeric with no two adjacent separators, and the empty one |
| Normalize.CanonicalConcat | crates/asobi-core/src/normalize.rs:1-26 | the normal form of a concatenation is that of its parts joined by what the gap at the seam reduces to |
| Normalize.ColonJoinsNormalForms | crates/asobi-core/src/normalize.rs:1-26 | normalising distributes over `:`; a part that normalises to nothing disappears with its colon |
| Slug.SlugOfNormalForm | crates/asobi-core/src/normalize.rs:37-50 | on a non-empty normal form the split-and-join chain is a character-by-character map |
| Slug.SlugIs | crates/asobi-core/src/normalize.rs:37-50 | of any text: lower-case alphanumerics and dashes for the rest, cut at the dashes, the pieces that are not empty joined by single ones; the fallback if none is left |
| Slug.LowerTable | crates/asobi-core/src/normalize.rs:38 | capital letters become the small ones, and nothing else changes |
| Slug.SlugsCollide | crates/asobi-core/src/normalize.rs:37-50 | two names have one slug exactly when they agree up to letter case and choice of separators |
| Frontmatter.QuoteRoundTrips | crates/asobi/src/frontmatter.rs:43-101 | unquoting undoes quoting for every string, though both are sequences of leftmost replacements in opposite orders |
| Frontmatter.Parse | crates/asobi/src/frontmatter.rs:53-80 | the line loop computes the parsed document |
| Frontmatter.ParsesExactlyWhenFenced | crates/asobi/src/frontmatter.rs:53-80 | there is a document exactly when the first line and some later one are `---` between whitespace |
| Frontmatter.AddFieldIs | crates/asobi/src/frontmatter.rs:64-76 | a line with a colon sets the trimmed text before the first one to the unquoted text after it; a line without sets nothing |
| Frontmatter.EscapeIs | crates/asobi/src/frontmatter.rs:43-46 | quoting escapes backslashes and quotation marks, character by character, and nothing else |
| Frontmatter.SingleQuotesRoundTrip | crates/asobi/src/frontmatter.rs:86-101 | single-quoted texts with their quotes doubled read back, and bare texts read as they are |
| Frontmatter.FieldsAreRead | crates/asobi/src/frontmatter.rs:53-80 | plain fields before a fence are all collected, in order, and reading stops at that fence |
| Frontmatter.ReadFieldsKeepsLast | crates/asobi/src/frontmatter.rs:64-76 | whatever the lines hold, reading leaves under a key the value of the last line before the first fence that has it, or what was there |
| Frontmatter.BlockIsParsed | crates/asobi/src/frontmatter.rs:53-101 | parsing a rendered block returns its fields and the exact body, whatever fences the body holds |
| Compact.GroupOutgoing | crates/asobi/src/compact.rs:80-130 | the loop groups outgoing links, `[[slug]]` each, by relation type in order, and counts them; the types are exactly those of outgoing relations |
| Compact.RenderFrontmatter | crates/asobi/src/compact.rs:80-130 | the buffer holds the rendered block: identity, truths by key, links by relation type |
| Compact.UniqueObservations | crates/asobi/src/compact.rs:132-200 | the loop with its seen-set keeps the distinct observations, each once, in the order of first occurrence |
| Pages.FirstsAreUnique | crates/asobi/src/compact.rs:158-164 | only one list has the same members, each once, in the order of first occurrence |
| Compact.RenderEntityMarkdown | crates/asobi/src/compact.rs:132-200 | the buffer holds the whole rendered topic; when no text has a line break, the lines after the block are the title, a table row a truth in key order, a bullet a distinct observation in order of first occurrence, and a row a relation that touches the entity, `Outgoing` exactly when it starts there, each list under its heading and left out when it is empty |
| Compact.BodyIsPage | crates/asobi/src/compact.rs:132-200 | the same of the body alone, as an exact list of lines |
| TextLines.LinesAreLines | crates/asobi/src/compact.rs:132-200 | lines have no line break and, ended by one each, are the text |
| Sync.TopicIsReadBack | crates/asobi/src/compact.rs:80-200 | parsing a rendered topic returns exactly the rendered field map and the exact body |
| Sync.PropertiesAreRecovered | crates/asobi/src/compact.rs:80-130 | every link property of a parsed rendering is the link or the list of quoted links of its type; when no relation type is another property's name, every identity property, truth and count and the stamp reads as what it was promoted from; and the body is the page |
| Sync.TopicsDir.SyncGraph | crates/asobi/src/compact.rs:8-51 | the loop leaves the files and returns the count that the specification says; every entity but a `task` has its file, the slug and `.md`, and no other file is touched |
| Sync.SyncRefinesRewrite | crates/asobi/src/compact.rs:8-51 | with distinct paths every synced file equals its entity's rendering, under the old stamp exactly when the old file already matched; other files stay; the count is the number of stale files |
| Sync.StampIsRead | crates/asobi/src/compact.rs:30-36 | any topic with a one-line name and slug is read back; its stamp is the last `compacted` line before the first fence, and may not be found at all if its type holds a fence |
| Sync.RenderingIsRecognised | crates/asobi/src/compact.rs:27-41 | a file that is a rendering is left alone exactly when the reader finds the stamp it was rendered with; the type and truth values may have line breaks |
| Resync.ResyncRewritesExactly | crates/asobi/src/compact.rs:8-51 | for any list of topics with distinct names, a second sync of an unchanged graph rewrites exactly the topics that share their path with another synced one and those whose stamp is hidden |
| Resync.ResyncWritesNothing | crates/asobi/src/compact.rs:8-51 | it writes nothing, at whatever time, exactly when no two synced topics share a path and each was up to date before or has its new stamp read back |
| Resync.TopicIsRewritten | crates/asobi/src/compact.rs:24-47 | when its turn comes, a synced topic is rewritten exactly when it shares its path or its stamp is hidden |
| Resync.PlainResyncWritesNothing | crates/asobi/src/compact.rs:8-51 | for plain topics and a stamp that is no list, a second sync writes nothing exactly when no two synced topics share a path and each was up to date or has no outgoing `compacted` relation |
| Resync.HiderIsRewritten | crates/asobi/src/compact.rs:27-41 | an entity with a `compacted` relation is rewritten by the second sync |
| Resync.TwinsAreRewritten | crates/asobi/src/compact.rs:24-47 | so are both of two notes called `a.b` and `a-b` |
| Topics.ReadFull | crates/asobi-storage/src/storage/sqlite.rs:975-977 | the full read shows every entity with its whole trail, and every relation |
| Topics.TopicAt | crates/asobi/src/compact.rs:18-25 | the topics fed to a sync are the stored entities in name order, each with its type, its whole trail, its truths and all relations |
| Topics.StoredPathsCollide | crates/asobi/src/compact.rs:24-25 | two stored names share a topic file exactly when they are alike |
| Topics.StoredGraphSettles | crates/asobi/src/compact.rs:8-51 | a second sync of an unchanged stored graph writes nothing exactly when no two synced names are alike and each topic was up to date or has its stamp read back |
| Sync.RenderingNamesItsEntity | crates/asobi/src/compact.rs:132-200 | equal renderings are of the same entity name |
| Schema.ExecKeepsSound | crates/asobi-storage/migrations/0001_baseline.sql:5-32 | every statement keeps ids increasing, rowids distinct and every reference to a live entity |
| Tables.LookupIsScan | crates/asobi-storage/migrations/0001_baseline.sql:48-51 | an all-words lookup in the observation index returns exactly the rows a scan would |
| Tables.TruthLookupIsScan | crates/asobi-storage/migrations/0001_baseline.sql:34-37 | the same for the truth index |
| Tables.IndexDelete | crates/asobi-storage/migrations/0001_baseline.sql:55-57 | deleting a row's postings leaves the index rebuilt without the row |
| Tables.IndexUpdate | crates/asobi-storage/migrations/0001_baseline.sql:58-61 | replacing a row's postings leaves the index rebuilt with the new content |
| Tables.Database.DeleteObservationRows | crates/asobi-storage/migrations/0001_baseline.sql:55-57 | deleting the selected rows one by one, a trigger on each, leaves the unselected rows in order, the index equal to a rebuild and exactly the touched entities' activity moved |
| Tables.Database.UpdateObservationRows | crates/asobi-storage/migrations/0001_baseline.sql:58-67 | the same for a multi-row content update |
| Tables.Database.Cascade | crates/asobi-storage/migrations/0001_baseline.sql:11-32 | foreign-key cascades fire the index triggers on every row they delete and move no live entity's activity |
| Tables.Database.Execute | crates/asobi-storage/migrations/0001_baseline.sql:34-79 | a statement fails, changing nothing, when a foreign key would break; else the tables become what the specification says and both indexes still equal a rebuild; the `Edits` rows below say in rows and trails what that is |
| Edits.DeleteByIdEffect | crates/asobi-storage/src/storage/sqlite.rs:881-890 | deleting by id: the rows but for those with that entity and id, in order, and the activity of the entity if there was one |
| Edits.DeleteByContentEffect | crates/asobi-storage/src/storage/sqlite.rs:866-879 | deleting by content, likewise |
| Edits.UpdateByIdEffect | crates/asobi-storage/src/storage/sqlite.rs:892-907 | updating by id: the matching row has the new content, id and time kept |
| Edits.UpdateByContentEffect | crates/asobi-storage/src/storage/sqlite.rs:909-926 | updating by content, likewise for every matching row |
| Edits.DeleteTruthEffect | crates/asobi-storage/src/storage/sqlite.rs:960-969 | deleting a truth removes that key of that entity alone |
| Edits.UpsertTruthEffect | crates/asobi-storage/src/storage/sqlite.rs:944-958 | writing a truth sets that key of that entity alone and keeps its row number |
| Edits.NextRowidIs | crates/asobi-storage/migrations/0001_baseline.sql:26-32 | a new truth's row number is one more than the largest there is, or 1 |
| Edits.SwapStatusEffect | crates/asobi-storage/src/storage/sqlite.rs:1318-1328 | the compare-and-set writes the status exactly when it was the expected one, and does nothing otherwise |
| Edits.InsertObservationEffect | crates/asobi-storage/src/storage/sqlite.rs:803-836 | an observation is appended under the next id, with the time, and the activity of its entity moves |
| Edits.InsertEntityEffect | crates/asobi-storage/src/storage/sqlite.rs:774-801 | a new entity is created and active now; one that is there is left alone |
| Edits.DeleteEntityEffect | crates/asobi-storage/migrations/0001_baseline.sql:5-32 | an entity goes with exactly its observations, truths and relations |
| Edits.DeleteRelationEffect | crates/asobi-storage/src/storage/sqlite.rs:928-942 | deleting a relation removes it alone and moves no activity |
| Edits.DeletingAll | crates/asobi-storage/src/storage/sqlite.rs:866-879 | a list of deletions by content leaves the rows that none of them names, in order, and moves the activity of exactly the entities that lost one |
| Edits.Unrelating | crates/asobi-storage/src/storage/sqlite.rs:928-942 | a list of relation deletions always commits and removes exactly those |
| Tables.Database.Continue | crates/asobi-storage/src/storage/sqlite.rs:206-211 | one more statement of a running transaction, rolling tables and indexes back to its start if it fails |
| Tables.Database.Transact | crates/asobi-storage/src/storage/sqlite.rs:206-211 | all statements or none, with sound tables and rebuilt indexes either way |
| Runs.TransactionFrame | crates/asobi-storage/migrations/0001_baseline.sql:62-79 | a transaction leaves an entity's activity at its own time if it wrote a row of it, and entity and truths untouched otherwise |
| Sweep.AbandonPassEffect | crates/asobi-storage/src/storage/sqlite.rs:294-364 | a pass always commits, marks exactly its candidates, adds its note to each of their trails whatever the cap, and changes nothing else; `Outcomes.DueIsCandidate` says who the candidates are |
| Sweep.AbandonInAnyOrder | crates/asobi-storage/src/storage/sqlite.rs:344-361 | abandoning names marks and annotates the same in whatever order the loop visits them |
| Sweep.NoOrphanedWork | crates/asobi-storage/src/storage/sqlite.rs:319-329 | every pass commits a state where no task it abandoned has an open `part_of` child |
| Sweep.RepeatedPassesConverge | crates/asobi-storage/src/storage/sqlite.rs:294-364 | repeated passes at a fixed time run out of candidates within as many passes as there are open tasks |
| Sweep.SurvivesExactlyWhenProtected | crates/asobi-storage/src/storage/sqlite.rs:294-364 | in any graph an entity stays open for good exactly when it is in a self-protecting set of open work |
| Sweep.SurvivesExactlyAboveLiveWork | crates/asobi-storage/src/storage/sqlite.rs:294-364 | with an acyclic `part_of`, exactly when a chain of open work leads down to an open entity that is active or not a task |
| Sweep.CycleIsNeverAbandoned | crates/asobi-storage/src/storage/sqlite.rs:319-329 | two idle tasks that are part of each other are never abandoned |
| Sweep.PurgePassEffect | crates/asobi-storage/src/storage/sqlite.rs:381-393 | a purge always commits and removes exactly its candidates with every row that refers to them; `Outcomes.DueIsCandidate` says who they are |
| Sweep.DeletionEffect | crates/asobi-storage/src/storage/sqlite.rs:384-390 | deleting entities removes them and their rows, in whatever order |
| Outcomes.DueIsCandidate | crates/asobi-storage/src/storage/sqlite.rs:44-48 | who a pass is for, in stored rows: due for deletion is a `task` whose status is `DONE`, `CLOSED` or `ABANDONED` and whose last activity is more than the window times 86400 seconds ago; due for abandonment is one idle as long with any other status or none and no live `part_of` child with any other status or none |
| Outcomes.AbandonOutcome | crates/asobi-storage/src/storage/sqlite.rs:294-364 | after an abandonment pass exactly the tasks due have the status `ABANDONED`, the time of the pass and the note with the number of days; every other entity has its row, truths and trail as before |
| Outcomes.PurgeOutcome | crates/asobi-storage/src/storage/sqlite.rs:381-393 | after a purge an entity is gone exactly when it was due for deletion; every other has its row, truths and trail as before, and every relation with both ends left |
| Outcomes.SweepOutcome | crates/asobi-storage/src/storage/sqlite.rs:240-265 | after a sweep the tasks due for deletion before it are gone, those due for abandonment before it are marked and still there, and every other entity is as before |
| Lifecycle.TwoStageLifecycle | crates/asobi-storage/src/storage/sqlite.rs:240-416 | in every interleaved run, a task that retention deletes and that a user last wrote with a status other than the three finished ones was left alone for more than both windows together, in seconds, taking the smallest windows used; no clock assumption is needed |
| Lifecycle.LifecycleBoundIsSharp | crates/asobi-storage/src/storage/sqlite.rs:240-416 | that bound is reached |
| History.RunsAreSound | crates/asobi-storage/migrations/0001_baseline.sql:5-32 | in every reachable state all rows refer to live entities and ids and rowids are distinct |
| History.OnlyFinishedTasksAreSwept | crates/asobi-storage/src/storage/sqlite.rs:701-772 | an entity disappears only by a statement that deletes it or all entities, or as a `task` with status `DONE`, `CLOSED` or `ABANDONED` idle beyond the window |
| History.EntitiesLast | crates/asobi-storage/src/storage/sqlite.rs:774-801 | over every run, an entity that no transaction deletes stays, and its type and creation time never change |
| History.ActivityIsLastWrite | crates/asobi-storage/migrations/0001_baseline.sql:62-79 | in every reachable state `last_activity` is the time of the latest transaction that created the entity or wrote one of its observations or truths |
| History.ActivityCoversRowsInRuns | crates/asobi-storage/migrations/0001_baseline.sql:62-79 | under a clock that never goes back it is at least every live row's own time, and never in the future |
| History.RelationsAreNoActivity | crates/asobi-storage/migrations/0001_baseline.sql:62-79 | no transaction of relation statements moves it |
| History.IdsAreNeverReused | crates/asobi-storage/migrations/0001_baseline.sql:11-16 | an id read at one point of a run later denotes the same observation of the same entity, or nothing |
| History.DroppedIdsNeverReturn | crates/asobi-storage/migrations/0001_baseline.sql:11-16 | an id that denotes nothing never comes back, not after pruning, cascades or a reset |
| History.LaterRowsHaveLargerIds | crates/asobi-storage/migrations/0001_baseline.sql:11-16 | id order is write order across transactions |
| Claims.ProtocolRefinesAtomicClaims | crates/asobi-storage/src/storage/sqlite.rs:1235-1341 | however the statements of many processes interleave and abort, committed tables and answers are those of atomic claims one after another |
| Claims.CompareAndSetNeverLoses | crates/asobi-storage/src/storage/sqlite.rs:1318-1328 | the `changed == 0` branch of `claim_next`, and of a dispatch that names no task, is unreachable |
| Claims.ClaimEffect | crates/asobi-storage/src/storage/sqlite.rs:1262-1301 | a claim of a ready task succeeds: status and claimant are written, a dispatch leaves its note on the trail and trims it to the cap, and no other truth, trail, relation or type changes |
| Claims.ClaimTakesFirstReady | crates/asobi-storage/src/storage/sqlite.rs:1304-1341 | without a named task, the answer is the live entity of type `task` and status `READY_TO_DISPATCH` whose name comes before every other such one, and none exactly when there is none; no other task becomes ready or unready |
| Claims.NamedDispatchIgnoresKind | crates/asobi-storage/src/storage/sqlite.rs:1235-1302 | a dispatch by name claims exactly when the status is `READY_TO_DISPATCH`, whatever the entity's type, and changes nothing otherwise |
| Claims.ClaimOutcome | crates/asobi-storage/src/storage/sqlite.rs:1235-1341 | one atomic claim in stored rows: which task is answered; then its status is `DISPATCHED`, `claimed_by` the agent, and a dispatch adds its note under the cap, 200 by default; without an answer nothing changes |
| Claims.ClaimsNeverExceedReadyWrites | crates/asobi-storage/src/storage/sqlite.rs:1235-1341 | in every run, claims of a task never exceed the committed writes that made it ready |
| Claims.NoDoubleClaim | crates/asobi-storage/src/storage/sqlite.rs:1235-1341 | between two claims of a task a transaction made it ready again |
| Trails.AddingObservations | crates/asobi-storage/src/storage/sqlite.rs:803-836 | a batched addition succeeds exactly when every batch with something to insert names a live entity; each named trail is then the newest `cap` of the old trail and its new contents in order, and nothing else changes |
| Trails.SplittingIsInvisible | crates/asobi-storage/src/storage/sqlite.rs:803-836 | how one entity's contents are split over batches makes no difference |
| Trails.PruneTrimsTrail | crates/asobi-storage/src/storage/sqlite.rs:821-833 | the pruning statement keeps exactly the newest rows of its entity and every other trail |
| Trails.SeedingIgnoresCap | crates/asobi-storage/src/storage/sqlite.rs:787-798 | a new entity's trail is what it was seeded with, of any length |
| Sessions.SessionIsRun | crates/asobi-storage/src/storage/sqlite.rs:214-217 | a run of requests is a run of transactions, so what holds of every run of transactions holds of it |
| Caps.CreationWithinCap | crates/asobi-storage/src/storage/sqlite.rs:774-801 | creation leaves every trail within the cap exactly when they were and no new entity's first input has more observations |
| Caps.AbandonmentWithinCap | crates/asobi-storage/src/storage/sqlite.rs:344-361 | an abandonment pass does exactly when they were and every task it marks was below the cap |
| Caps.CapHoldsExactlyWhen | crates/asobi-storage/src/storage/sqlite.rs:774-836 | every state of a run of requests is within the cap exactly when the first is and every creation and abandonment on the way respects it |
| Caps.CappedCallTrims | crates/asobi-storage/src/storage/sqlite.rs:815-833 | however long a trail is, the next addition, noted update or dispatch trims it to the cap |
| Caps.NamesStayCanonical | crates/asobi-storage/src/storage/sqlite.rs:54-56 | in every state of a run of requests all stored names are in normal form |
| Trails.ShowIsSuffix | crates/asobi-storage/src/storage/sqlite.rs:489-530 | a limited read shows exactly the end of the trail, oldest first, with the true total |
| Trails.ShowAfterAdding | crates/asobi-storage/src/storage/sqlite.rs:489-530 | a limited read after an addition shows the newest of everything ever in the trail, however it was trimmed in between |
| Requests.CreatingEntities | crates/asobi-storage/src/storage/sqlite.rs:774-801 | creation always succeeds; each new entity gets kind and observations of the first input naming it, and nothing else changes, not even the activity of an entity that was there |
| Requests.UpdatingTask | crates/asobi-storage/src/storage/sqlite.rs:1196-1228 | the update of a live task commits: notes are appended under the cap, without notes nothing is pruned, the status is replaced or kept, and no other trail, truth or relation changes |
| Requests.Relating | crates/asobi-storage/src/storage/sqlite.rs:838-852 | relating adds exactly the relations when all ends are live, and fails otherwise |
| Store.SqliteStore.AbandonIdleTasks | crates/asobi-storage/src/storage/sqlite.rs:294-364 | the loop marks exactly the tasks due for abandonment and returns their number; a window of 0 does nothing |
| Store.SqliteStore.PurgeInner | crates/asobi-storage/src/storage/sqlite.rs:381-416 | there is one entry for each task due for deletion, with its status, activity and numbers of observations and relations; a dry run changes nothing, otherwise the loop over the report removes exactly them |
| Reports.ReportIsOrdered | crates/asobi-storage/src/storage/sqlite.rs:719-741 | a report lists finished idle tasks, longest idle first, ties by name |
| Reports.ReportIsRight | crates/asobi-storage/src/storage/sqlite.rs:701-745 | every entry is of a task due for deletion and gives its type, status, activity, the length of its trail and the number of relations at either end |
| Reports.ReportCountsRemovedRows | crates/asobi-storage/src/storage/sqlite.rs:728-729 | the reported observation counts add up to the rows the purge removes |
| Store.SqliteStore.PurgeOnRequest | crates/asobi-storage/src/storage/sqlite.rs:1090-1093 | a purge on request reports on and works on the swept tables, and removes exactly what is due there |
| Store.SqliteStore.SweepBody | crates/asobi-storage/src/storage/sqlite.rs:240-265 | abandonment, then retention unless its window is 0: exactly the tasks due for deletion are gone, exactly those due for abandonment are marked, and the two numbers are returned |
| Store.SqliteStore.SweepNow | crates/asobi-storage/src/storage/sqlite.rs:279-284 | a direct sweep does the same whether or not the process has swept, and counts as its sweep |
| Store.SqliteStore.BeginWrite | crates/asobi-storage/src/storage/sqlite.rs:214-232 | the first write of a process starts from tables of which exactly the tasks due for deletion are gone and those due for abandonment marked; later ones from the tables as they are |
| Store.SqliteStore.CreateEntities | crates/asobi-storage/src/storage/sqlite.rs:774-801 | the loops with their row count carry out the specified creation, as a call of a run, after the sweep |
| Store.SqliteStore.AddObservations | crates/asobi-storage/src/storage/sqlite.rs:803-836 | the nested loops change nothing but the sweep on failure, and else leave every trail as specified, the cap being 200 by default |
| Store.SqliteStore.CreateRelations | crates/asobi-storage/src/storage/sqlite.rs:838-852 | all the relations, their ends normalised, are added and nothing else changes, or, when one end is not live, none |
| Store.SqliteStore.TruthUpsert | crates/asobi-storage/src/storage/sqlite.rs:944-958 | when the entity is live the truth is written with the time, its row number kept if it was there, the activity moved and nothing else changed; otherwise nothing but the sweep happens |
| Store.SqliteStore.Update | crates/asobi-storage/src/storage/sqlite.rs:1160-1233 | a request without notes or status, or with a status other than the board's five and `BLOCKED_ON` something, is refused before the sweep; an unknown or non-`task` entity after it; else notes are appended under the cap, 200 by default, the status replaced or kept and returned, and no other trail, truth or relation changes |
| Store.SqliteStore.Claim | crates/asobi-storage/src/storage/sqlite.rs:1235-1341 | tables and answer are those of the atomic claim on the swept tables, in the terms of `Claims.ClaimOutcome` |
| Store.SqliteStore.Reset | crates/asobi-storage/src/storage/sqlite.rs:1095-1120 | everything is gone except the id sequence |
| Store.SqliteStore.DeleteEntities | crates/asobi-storage/src/storage/sqlite.rs:854-864 | exactly the named entities and the rows that refer to them are gone |
| Store.SqliteStore.DeleteObservations | crates/asobi-storage/src/storage/sqlite.rs:866-879 | exactly the rows of a named entity with one of the contents named for it are gone, the others in order; the activity of exactly the entities that lost a row moves |
| Store.SqliteStore.DeleteObservationById | crates/asobi-storage/src/storage/sqlite.rs:881-890 | exactly the row with that entity and id is gone, the others in order; the activity moves only if there was one |
| Store.SqliteStore.UpdateObservationById | crates/asobi-storage/src/storage/sqlite.rs:892-907 | exactly the row with that entity and id has the new content, every other row and field as before |
| Store.SqliteStore.UpdateObservation | crates/asobi-storage/src/storage/sqlite.rs:909-926 | exactly the rows of the entity with the old content have the new one, every other row and field as before |
| Store.SqliteStore.DeleteRelations | crates/asobi-storage/src/storage/sqlite.rs:928-942 | exactly the named relations, their ends normalised, are gone |
| Store.SqliteStore.TruthDelete | crates/asobi-storage/src/storage/sqlite.rs:960-969 | exactly the truth with that entity and key is gone |
| Fusion.Fuse | crates/asobi-storage/src/storage/sqlite.rs:662-672 | the loops over the paths and the sort compute the fused list |
| Fusion.FusedOrdersUnion | crates/asobi-storage/src/storage/sqlite.rs:662-672 | it is a duplicate-free permutation of the union, ordering any two names by score, then name |
| Fusion.DominatorComesFirst | crates/asobi-storage/src/storage/sqlite.rs:651-672 | a name ranked no worse than another on every path comes before it |
| Fusion.ThreePathsOutrankOne | crates/asobi-storage/src/storage/sqlite.rs:651-682 | with paths of at most 122 candidates, a name all three find outranks every name only one finds |
| Fusion.TwoPathsOutrankOne | crates/asobi-storage/src/storage/sqlite.rs:651-682 | a name two paths find at ranks up to 60 outranks every name only one finds |
| Fusion.RankSixtyIsSharp | crates/asobi-storage/src/storage/sqlite.rs:651-682 | at rank 61 it only ties with the first of another path, and the names decide |
| Search.SearchNames | crates/asobi-storage/src/storage/sqlite.rs:986-1042 | the names are the fused matches of the term, or if there are none, of the term with its words joined by `OR` unless it is one word or uses the query syntax; with filters restricted to the entities that meet all of them, or all of those if nothing matched; cut at the limit, 100 by default; and widening is reported exactly when the term matched nothing and its widened form did |
| Widening.WideningIs | crates/asobi-storage/src/storage/sqlite.rs:687-699 | a term is widened exactly when it has two words or more and none is `AND`, `OR`, `NOT` or holds a quotation mark; the words of the widened term are those of the term in order with `OR` between them |
| Widening.WordsSplit | crates/asobi-storage/src/storage/sqlite.rs:687-699 | the words of two texts with whitespace between them are those of the first and then those of the second |
| Widening.WordsAreWords | crates/asobi-storage/src/storage/sqlite.rs:687-699 | words are not empty and hold no whitespace |
| Widening.WordOfWord | crates/asobi-storage/src/storage/sqlite.rs:687-699 | such a text is its only word |
| Search.WiderLimitAppends | crates/asobi-storage/src/storage/sqlite.rs:986-1050 | a narrower result is a prefix of a wider one: without filters up to 100, with filters for all limits when the term or its widened form matched, however either search lists its hash set |
| Search.FilteredSearchAppendsExactlyWhen | crates/asobi-storage/src/storage/sqlite.rs:1028-1036 | with filters that holds for every two orders of the hash sets exactly when something matched or at most one entity is eligible |
| Search.UnmatchedSearchesDisagree | crates/asobi-storage/src/storage/sqlite.rs:1028-1036 | two orders for which it fails |
| Search.RankingStaysExactlyUpTo100 | crates/asobi-storage/src/storage/sqlite.rs:604-682 | over all unfiltered searches, the result for a limit is a prefix of that for a wider one exactly when the wider is at most 100 |
| Search.RankingShifts | crates/asobi-storage/src/storage/sqlite.rs:611-617 | for every limit above 100 and every narrower one, a sound database and a search whose first results differ, the word being in no name and no type |
| Search.MatchedSearchIntersects | crates/asobi-storage/src/storage/sqlite.rs:1028-1036 | when the term matched, the result is the fused ranking of all candidates restricted to the filters, in order, cut at the limit |
| Search.FiltersHold | crates/asobi-storage/src/storage/sqlite.rs:1009-1036 | every result of a filtered search is live and satisfies every filter |
| Search.SearchIntersectsExactlyWhen | crates/asobi-storage/src/storage/sqlite.rs:1028-1036 | term and filters intersect exactly when the term matches something or the filters nothing; otherwise every filter match is returned |
| Graphs.ReadGraph | crates/asobi-storage/src/storage/sqlite.rs:426-600 | the loops build the specified projection; each node gives the type, all truths and the number of observations of its entity and, with content, the last of them up to the limit; the relations are ordered by source, target and type |
| Graphs.ExpansionAppends | crates/asobi-storage/src/storage/sqlite.rs:433-464 | expansion appends, each once, exactly the missing ends of the wanted relations |
| Graphs.SelectionShowsNeighbours | crates/asobi-storage/src/storage/sqlite.rs:433-464 | a selection shows exactly the live ones among the names and their neighbours, whatever the row order |
| Graphs.ListedKeepsOrder | crates/asobi-storage/src/storage/sqlite.rs:493-498 | distinct names are shown in the order asked for |
| Graphs.ListedKeepsLast | crates/asobi-storage/src/storage/sqlite.rs:493-498 | a name asked for more than once is shown where it is asked for last |
| Graphs.EmptySelectionKeepsEveryRelation | crates/asobi-storage/src/storage/sqlite.rs:581-589 | an empty selection keeps every relation, any other exactly those that touch a shown entity |
| Planning.ChildIsPrefixed | crates/asobi/src/tasks.rs:109-113 | a child's stored name is the epic's normal form, `:task-` and the numeral of its number, without leading zeros |
| Planning.ChildrenAreDistinct | crates/asobi/src/tasks.rs:109-113 | children have distinct stored names, none of them the epic's |
| Planning.Plan | crates/asobi/src/tasks.rs:97-177 | planning goes ahead exactly when no text is blank and no name is taken; then the epic and its children are tasks with exactly their scope and plan notes and their objective, title and ready truths, related by `part_of`, and everything else is as the sweep left it |
| Planning.ExpandingPlan | crates/asobi/src/tasks.rs:97-177 | expanding `part_of` on a planned epic shows exactly the epic and its ready children |
| Store.SweepOnlyRemoves | crates/asobi-storage/src/storage/sqlite.rs:240-265 | a sweep adds no entity or relation, changes no type and reopens nothing that is done |
| Closing.Close | crates/asobi/src/tasks.rs:309-377 | it succeeds exactly when the epic may be closed and what it then writes to is still there after the sweep; it leaves the epic and all its child tasks done, adds the lessons to the project and the outcome to the epic under the cap, and changes no other trail, truth or relation; when the epic may not be closed nothing changes |
| Closing.ClosesUnlessSwept | crates/asobi/src/tasks.rs:309-377 | without a sweep in between it succeeds exactly when the epic may be closed |
| Closing.ClosesExactlyWhen | crates/asobi/src/tasks.rs:309-333 | it may exactly when there is a task to look at and every child task and every parent task by `part_of` has the status `DONE`, and the epic itself too if it is a task not spelled in its normal form |
| Closing.NestedEpicsBlockEachOther | crates/asobi/src/tasks.rs:309-333 | of two epics one inside the other, neither done, neither can be closed first |
| Requests.CreationKeepsNamesCanonical | crates/asobi-storage/src/storage/sqlite.rs:774-801 | creating entities keeps every stored name in normal form |

## Left out

- Schema.Db: rowids and ids are unbounded, so the largest rowid plus one never overflows; relations have no creation time, which nothing reads.
- Lifecycle.Next: one clock reading a transaction, in whole seconds; SQLite may tick between statements.
- Tables.Database: the tokenizer is a parameter and a query is a set of words that must all match; porter stemming, phrases, prefix operators and BM25 are not modelled.
- Search.SearchNames: the three ranked lists of a term are an input, a duplicate-free list where a property needs it; a malformed query is an empty list. The order in which a hash set is listed is an input too.
- Fusion.Weight: exact rationals instead of `f64`, so scores tie exactly where the fractions do.
- Claims.Step: the write lock is given; busy timeouts, WAL and readers outside the lock are not modelled.
- Store.SqliteStore: incremental vacuum and the resolution of the two windows from environment and configuration are left out. A sweep that fails is ignored by the code; here it cannot fail.
- Planning.Plan: the requests of one command run with no other process in between and at one clock reading; the same holds for `Closing.Close`.
- Closing.Close: the date in the outcome is a parameter.
- Slug.SlugOfNormalForm: only ASCII letters are lower-cased, since names are normal forms; the hash-derived slug of a text without alphanumerics is a parameter.
- Sync.StampIsRead: names and slugs with a line break, which no stored name has, are not covered.
- Topics.StoredGraphSettles: the name a text without alphanumerics normalises to, the empty one, is left to `Resync.ResyncWritesNothing`, as its slug comes from the hash.
- Compact.BodyIsPage: a text with a line break takes several lines of the page, so the list of lines is stated for texts without one; the same holds for that part of `Compact.RenderEntityMarkdown`.
- Sync.TopicsDir: the directory is a map from path to text; unreadable files and write errors are left out, and the stamp is an opaque text without a newline.
- `tasks list`, `tasks sync` and the receipts: filters and messages over the operations above.
- HTTP server, remote client, backend switch, graph registry, background ticker, configuration discovery and schema refusal: plumbing around the store.
