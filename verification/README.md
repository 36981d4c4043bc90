# Verified model of the plugin server's protocols and algorithms

This project models nine parts of the plugin server in Dafny and proves what they promise. Each SQL
statement, Kafka send, object-store call or job enqueue is one atomic step; answers of other systems are
parameters or are chosen by an adversary. `dafny verify dfyconfig.toml` checks everything.

| files | what they model |
|---|---|
| `PersonTables`, `PersonInterleaving` | the persons and distinct ids tables, one function for each SQL statement, and any number of workers that run `alias`, `mergePeople` and `createPersonIfDistinctIdIsNew` interleaved at statement granularity, with any statement failing before or after it takes effect |
| `PersonSteps` | what the single steps of these calls do, and how runs are put together |
| `PersonLocks` | which row locks these workers hold, who waits for whom, and which of these waits Postgres sees |
| `PersonUniting` | when a call of `alias` that returns has united its two ids |
| `PersonReplica`, `PersonSequential`, `PersonUnion` | the same operations as methods when calls do not overlap, their Kafka messages, and the partition that a run of calls leaves |
| `HistoricalExport` | the self-enqueuing export job over a shared cursor, with pages inside intervals and retry jobs |
| `SelectorMatching` | the backtracking selector matcher against the declarative meaning of child and descendant combinators |
| `GroupTypes` | allocation of the five group type columns by servers with stale caches |
| `LoopLanguage`, `LoopTimeout` | the loop-timeout code transform over a small language with while, do-while and for |
| `ElementSyntax`, `ElementRoundTrip`, `ElementChain` | the element chain printer and parser, its three regular expressions modelled with their backtracking order |
| `KafkaProducer`, `KafkaConsumer` | batching on the way to Kafka, and consuming a partition batch by batch over crashes |
| `Uuid` | UUID text and bytes, and the time-ordered UUIDT with its per-millisecond series |
| `CivilTime`, `KeyOrder`, `S3Keys`, `S3Queue`, `S3Polling` | the S3 job queue, whose key text orders jobs by time, and what repeated polls do to it |
| `PluginMetrics`, `ExportRetries` | export batches with exponential retries, and their metrics |
| `Text`, `Digits`, `Wrappers` | characters, numerals and the option types shared by the others |

Where the code and its stated intent differ, the model follows the code, and the exact condition under
which the intent holds is proved:

- Historical export: a cursor of 0 is taken for a missing one (`!timestampCursor`). Delivery is at least
  once in every clean run if and only if no non-empty interval starts at timestamp 0, and exactly once
  without failures if and only if such an interval has at most one page.
- Selector matcher: after a failed direct part it steps back one part without restoring the base, so it
  accepts too much for exactly the selectors with two `>` parts in a row.
- Kafka producer: a record above the size limit that meets an empty batch is dropped without an error, and
  a failing send loses its batch. Every record arrives if and only if no call does either.
- S3 queue: a job whose key could not be deleted runs again. A key's job ran once for each failed delete,
  and once more if the key is gone; jobs run at most once in all runs if and only if deletes cannot fail.
- S3 queue: keys of jobs whose year has more than four digits are never due and sort first; a due job is
  listed, and repeated polls run all due jobs, if and only if fewer than 100 of them are stored.
- Element chain: an element reads back if and only if no printed value is empty, ends with a backslash or
  contains a line break; an element without attributes makes the parser throw. A value stays within its
  quotes, whatever follows, if and only if the runs of backslashes before its quotes and at its end are even.
- UUIDT: ids increase within a run if and only if no millisecond sees more than 65536 of them.
- Export metrics add up if and only if no step of the run fails to enqueue a retry that holds events.
- Loop timeout: a loop without a source location is left alone. All loops of a form halt once transformed,
  for all tests and bodies, if and only if they have a location.
- A message about an updated person is built from the caller's copy of the row; it is right if and only if
  the row is still there and agrees with the copy in the columns that are not written.
- `alias`: the retry after a failed insert starts again from 0 merge attempts; there are still at most three
  merge transactions for each top-level call.
- `mergePeople`: its transaction stays open and idle, with the surviving person's row locked, while its catch
  block calls `alias`. When a move of distinct ids has failed, workers may wait for each other without any
  statement of Postgres waiting in a ring: a worker for itself, or two workers of which neither waits for
  itself. Such a run exists if and only if moves may fail with a database error.
- `alias`: a call that returns without an exception need not have united its ids. In all runs it has, if and
  only if no statement fails but a first insert, what it has read is still true when it decides and writes
  or the tables refuse the first insert, and it is not a refused `$identify`; each of these three alone can
  keep the ids apart.

## Model

| member | source | states |
|---|---|---|
| PersonTables.MoveKeeps | src/utils/db/db.ts:615-651 | moving the rows of a person and team moves the whole class of distinct ids: nothing is split, every id still has a person of its team, and nothing points to the source any more |
| PersonTables.InsertAllKeeps | src/utils/db/db.ts:469-474 | inserting distinct ids for a person keeps constraints and every existing class, and no person row changes |
| PersonTables.CreateKeeps | src/utils/db/db.ts:443-477 | creating a person with distinct ids adds one new row or nothing, keeps all other rows and every class |
| PersonTables.DeleteKeeps | src/utils/db/db.ts:527-530 | deleting a person succeeds only when no distinct id points to it, so no class is lost |
| PersonInterleaving.EveryRunIsSafe | src/worker/ingestion/process-event.ts:274-448 | for every schedule of any number of workers and every choice of failures, errors that come after a statement has taken effect included, at any two points of the run: each distinct id points to an existing person of its team, and two ids of one person stay together |
| PersonInterleaving.RunOnlyUnites | src/worker/ingestion/process-event.ts:274-448 | from any reachable state on, the same-person relation only grows, and a deleted person never reappears |
| PersonInterleaving.StepKeeps | src/worker/ingestion/process-event.ts:395-441 | one statement of one worker keeps the invariant of all workers, stale copies of rows included, although moving ids commits outside the merge transaction |
| PersonInterleaving.StepMergeKeeps | src/worker/ingestion/process-event.ts:395-441 | each statement of a merge, its catch block and its commit keep the constraints and every class |
| PersonLocks.EveryMergeTakesEffect | src/worker/ingestion/process-event.ts:364-441 | in every run, a merge that has got to its delete leaves, when it commits, the person to keep with the earlier time of creation, the properties of both and the flag of either, and the other person gone, all else unchanged; unless a distinct id points to the other person again, when it throws without effect |
| PersonInterleaving.StepAliasKeeps | src/worker/ingestion/process-event.ts:274-353 | each statement of alias, its retry after an error before or after an effect included, keeps the constraints and every class |
| PersonInterleaving.StepCreateKeeps | src/worker/ingestion/process-event.ts:623-640 | each statement of createPersonIfDistinctIdIsNew keeps the constraints and every class |
| PersonInterleaving.TopLevelCallsEnd | src/worker/ingestion/process-event.ts:274-448 | whatever the database answers and whoever else runs, a top-level call starts at most 3 merge transactions and takes at most 32 steps; a step is a statement that was answered |
| PersonLocks.ThirdMergeBegins | src/worker/ingestion/process-event.ts:418-440 | the bound of three merges is reached: after two failed updates a third merge of the same call begins |
| PersonLocks.EveryRingIsSeen | src/worker/ingestion/process-event.ts:392-441 | for every interleaving in which no failed move of distinct ids is retried, a worker that waits, waits for the top frame of another worker; so when workers wait for each other in a ring, each of them waits for the very connection whose statement waits next, which Postgres sees |
| PersonLocks.FailedMoveWaitsExactly | src/worker/ingestion/process-event.ts:418-440 | in every run, whatever other workers have changed since: a worker whose failed move is retried, if it then runs alone, waits for itself if and only if the call that it makes writes a row that one of its open transactions has locked, and otherwise the call returns; the rows written are both persons of a further merge, or the person to identify, or none |
| PersonLocks.OneFailureBlocks | src/worker/ingestion/process-event.ts:355-441 | for any two persons that alias would merge, a run of one worker in which only the first move fails, and no step is taken by a waiting worker, ends with that worker waiting for itself and no ring that Postgres sees |
| PersonLocks.TwoWorkersBlock | src/worker/ingestion/process-event.ts:355-441 | for any three persons, a run of two workers with one failed move ends with the two waiting for each other, neither for itself, and no ring that Postgres sees |
| PersonLocks.StuckExactly | src/worker/ingestion/process-event.ts:392-441 | over all runs in which moveDistinctIds fails with given errors only, workers can wait for each other unseen by Postgres if and only if a database error is among these errors |
| PersonUniting.CleanCallUnites | src/worker/ingestion/process-event.ts:274-353 | for every interleaving: a call of alias that met no failed statement, no unnoticed stale read and no refusal, and has come to its end, has united its ids; an insert of the first call that the tables refuse, or that fails, is no obstacle, since the call is then run once more |
| PersonUniting.CreatesAsAsked | src/worker/ingestion/process-event.ts:312-322 | a call that finds nobody creates one person for both ids, identified as asked, created at the given time and without properties |
| PersonUniting.ReturnedCallsUniteExactly | src/worker/ingestion/process-event.ts:274-353 | over all runs in which the call meets given obstacles at most, it never returns with its ids apart if and only if these are none; each of the three obstacles alone is enough for a run that does |
| PersonUniting.CleanCreateCallCreates | src/worker/ingestion/process-event.ts:623-640 | for every interleaving: when a call of createPersonIfDistinctIdIsNew without failed statements, for an id that is not remembered, is over, the id belongs to a person |
| PersonUniting.StaleReadKeepsApart | src/worker/ingestion/process-event.ts:287-299 | a run of two calls that both return: one moves an id of the other away between its read and its insert, and the ids of that other call stay on two persons although none of its statements failed |
| PersonInterleaving.EveryCallEnds | src/worker/ingestion/process-event.ts:274-448 | from any bounded state, the steps taken plus the steps still possible never exceed the bound of the state |
| PersonInterleaving.StepSpends | src/worker/ingestion/process-event.ts:427-439 | each step of the alias and mergePeople recursion lowers the measure over remaining attempts and the retry flag |
| PersonReplica.InsertSynced | src/utils/db/db.ts:455-467 | a new person row and its message keep the replayed messages equal to the tables |
| PersonReplica.UpdateSynced | src/utils/db/db.ts:495-522 | an update of a person and its message keep the replica equal to the tables, with created_at in seconds |
| PersonReplica.UpdateSyncedExactly | src/utils/db/db.ts:488-526 | the message of updatePerson, built from a copy of the row that may be out of date, keeps the replica equal if and only if the row is still there and the updated copy and the updated row agree in properties, team, flag and second of creation |
| PersonReplica.ReplayedColumns | src/utils/db/utils.ts:229-253 | the replayed messages hold for every person its properties, its team, its flag and the second of its creation |
| PersonReplica.LinkSynced | src/utils/db/db.ts:590-613 | an added distinct id and its message keep the replica equal to the tables |
| PersonReplica.RelinkSynced | src/utils/db/db.ts:653-674 | the two messages of one moved distinct id, one linking it to the target and one unlinking it from the source, keep the replica equal to the tables |
| PersonReplica.DeleteSynced | src/utils/db/db.ts:527-543 | deleting a person, or a person that is already gone, and its message keep the replica equal to the tables |
| PersonSequential.MoveRowsSynced | src/utils/db/db.ts:653-674 | the messages of all moved rows, in any order of the rows, keep the replica equal to the tables |
| PersonSequential.AddJoins | src/worker/ingestion/process-event.ts:290-311 | adding the unknown id to the known person unites the two classes and leaves every other person alone |
| PersonSequential.CreateJoins | src/worker/ingestion/process-event.ts:312-330 | with both ids unknown, one new person holds both, identified as asked, created now |
| PersonSequential.MergeJoins | src/worker/ingestion/process-event.ts:355-441 | a merge leaves one person for both classes with the earlier created_at, properties of both where the target wins, and identified if either was |
| PersonSequential.IdentifyJoins | src/worker/ingestion/process-event.ts:247-255 | identifying the person after the join changes nothing but is_identified of that person |
| PersonSequential.IdentifyRunKeeps | src/worker/ingestion/process-event.ts:331-352 | in runs of $identify calls identification never reverts, and two different identified persons never become one |
| PersonSequential.EventsProcessor.Alias | src/worker/ingestion/process-event.ts:274-353 | unites the classes of the two ids with the merged row just described, except that equal ids change nothing and a refused $identify leaves the partition unchanged; the emitted messages rebuild the tables |
| PersonSequential.EventsProcessor.HandleIdentifyOrAlias | src/worker/ingestion/process-event.ts:257-272 | unless the distinct id is illegal, $create_alias joins the alias without identifying and $identify joins a given anonymous id and identifies; all else does nothing |
| PersonSequential.IllegalWhateverCase | src/worker/ingestion/process-event.ts:45-62 | ten words are illegal as distinct ids in whatever case their letters are |
| PersonSequential.EventsProcessor.MergePeople | src/worker/ingestion/process-event.ts:355-448 | with copies that may be out of date: merges if the person to keep exists and the other one has distinct ids, the messages of update, move and delete in this order rebuilding the tables; otherwise throws, and the rollback leaves tables and messages as they were |
| PersonSequential.EventsProcessor.SetIsIdentified | src/worker/ingestion/process-event.ts:247-255 | the person of the id is identified, nothing else changes, and the messages rebuild the tables; an id without a person is an error without effect |
| PersonSequential.EventsProcessor.CreatePerson | src/utils/db/db.ts:443-486 | one person with the given columns and all the distinct ids, and messages that rebuild the tables; if an id is taken or repeated, an error without effect |
| PersonSequential.EventsProcessor.AddDistinctId | src/utils/db/db.ts:583-613 | one more distinct id of the person and a message that rebuilds the tables; if the id is taken or the person is gone, an error without effect |
| PersonSequential.EventsProcessor.UpdatePersonRow | src/utils/db/db.ts:488-525 | writes the present columns of the update, if the row is still there, and returns a message built from the caller's copy; the message rebuilds the tables exactly when copy and row agree, column by column, after the update |
| PersonSequential.EventsProcessor.MoveDistinctIdRows | src/utils/db/db.ts:615-675 | all ids of the source now belong to the target and the messages rebuild the tables; if the source has no ids or the target is gone, a RaceConditionError without effect |
| PersonSequential.EventsProcessor.DeletePersonRow | src/utils/db/db.ts:527-543 | the person is gone and the message rebuilds the tables; if a distinct id still points to it, an error without effect |
| PersonSequential.EventsProcessor.CreatePersonIfDistinctIdIsNew | src/worker/ingestion/process-event.ts:623-640 | a distinct id that is neither remembered nor stored gets a new person of its own, created at the given time, with no properties and not identified; every other id keeps its person and row, and otherwise nothing changes |
| PersonSequential.EventsProcessor.UpdatePersonProperties | src/worker/ingestion/process-event.ts:212-245 | properties override, once-properties only fill gaps, every other column and the id mapping stay, and an unknown id is an error without effect |
| PersonUnion.RunIsClosure | src/worker/ingestion/process-event.ts:274-353 | after any run of alias calls from empty tables, two distinct ids belong to one person if and only if a path of joined pairs connects them; refused calls and calls with equal ids contribute no pair |
| PersonUnion.UniteStep | src/worker/ingestion/process-event.ts:287-348 | one more joined pair extends the generated equivalence by exactly that pair |
| HistoricalExport.EveryRunEnds | src/worker/vm/upgrades/historical-export/export-historical-events.ts:86-177 | however an adversary picks jobs and failures, a run has at most as many jobs as a bound known at its start |
| HistoricalExport.RetriesAreEarned | src/worker/vm/upgrades/historical-export/export-historical-events.ts:157-177 | in every run the attempts at a page are at most one more than the failed queries and RetryErrors at it and at earlier pages of its interval; no other error leads to a further attempt |
| HistoricalExport.PagesFollowEvents | src/worker/vm/upgrades/historical-export/export-historical-events.ts:135-145 | in every run a page is attempted at most as often as the page before it gave events and it failed itself |
| HistoricalExport.GivesUpAfter15 | src/worker/vm/upgrades/historical-export/export-historical-events.ts:86-90 | in every run no job is retried more than 15 times, and none is given up before 15 failures |
| HistoricalExport.FetchedAreOfInterval | src/worker/vm/upgrades/historical-export/utils.ts:82-127 | a page holds at most 100 events, all of the ten minutes from its cursor on |
| HistoricalExport.StepShrinks | src/worker/vm/upgrades/historical-export/export-historical-events.ts:86-177 | the job that goes on and the job that retries together weigh less than the job they came from |
| HistoricalExport.EveryEventIsDelivered | src/worker/vm/upgrades/historical-export/export-historical-events.ts:86-177 | a finished run in which no job gave up and no other error was swallowed has delivered every event of every interval that starts at or before the maximum |
| HistoricalExport.AtLeastOnceExactly | src/worker/vm/upgrades/historical-export/export-historical-events.ts:101-118 | that holds of all clean runs if and only if no non-empty interval starts at timestamp 0 |
| HistoricalExport.RunKeeps | src/worker/vm/upgrades/historical-export/export-historical-events.ts:101-177 | at every point of a run each page of a claimed interval is delivered or some queued job will get to it |
| HistoricalExport.Escape | src/worker/vm/upgrades/historical-export/export-historical-events.ts:101-102 | constructs the clean run that fails once at timestamp 0 and finishes without that interval |
| HistoricalExport.DeliveryIsRange | src/worker/vm/upgrades/historical-export/utils.ts:82-127 | what a failure-free run delivers, plus the events behind the first page at timestamp 0, is the events of the half-open range, each as often as in the table |
| HistoricalExport.ClickHouseGivesThePages | src/worker/vm/upgrades/historical-export/utils.ts:92-111 | along the cursors of one export, the ClickHouse query over whole seconds gives the pages of the rows shifted by the milliseconds of the cursors, so what is proved of a table of events holds of it |
| HistoricalExport.ExactlyOnce | src/worker/vm/upgrades/historical-export/export-historical-events.ts:92-145 | a failure-free run delivers the range exactly once each if and only if no interval at timestamp 0 holds more than one page |
| HistoricalExport.HistoricalExport.ExportEventsFromTheBeginning | src/worker/vm/upgrades/historical-export/export-historical-events.ts:86-188 | the job as it changes cursor, flag and queue takes exactly the step that the theorems quantify over |
| HistoricalExport.HistoricalExport.RunWithoutFailures | src/worker/vm/upgrades/historical-export/export-historical-events.ts:86-145 | running jobs until the queue is empty ends, clears the running flag and has delivered, interval by interval and page by page, the events in order |
| SelectorMatching.CheckElementsAgainstSelector | src/worker/ingestion/action-matcher.ts:452-490 | the loop ends, by base index and then part index, with the verdict that the theorems are about |
| SelectorMatching.OneAskIsFoundExactly | src/worker/ingestion/action-matcher.ts:492-531 | for a selector of one part that asks for a text, tag, href, id, class, nth-child, nth-of-type or attribute, the matcher accepts if and only if some element has it, and never fails |
| SelectorMatching.PartIsMetExactly | src/worker/ingestion/action-matcher.ts:492-531 | an element meets a part if and only if it has everything that the part asks for |
| SelectorMatching.VerdictOfAsks | src/worker/ingestion/action-matcher.ts:492-531 | a part is accepted for an element if and only if each of its single requirements is |
| SelectorMatching.SelectedIsAccepted | src/worker/ingestion/action-matcher.ts:452-490 | whenever the elements embed the parts by child and descendant steps, the matcher accepts |
| SelectorMatching.AcceptedIsSelected | src/worker/ingestion/action-matcher.ts:452-490 | without two consecutive direct parts it accepts if and only if there is an embedding |
| SelectorMatching.SoundExactlyWithoutAdjacentDirects | src/worker/ingestion/action-matcher.ts:477-487 | for a given shape of selector, acceptance always means an embedding if and only if the shape has no two consecutive direct parts |
| SelectorMatching.NoTypeError | src/worker/ingestion/action-matcher.ts:477-487 | with a first part that is not direct the loop never runs off the front of the parts |
| SelectorMatching.RepeatIsNotSelected | src/worker/ingestion/action-matcher.ts:480-483 | the elements built for a selector with two consecutive direct parts do not embed it |
| SelectorMatching.AcceptedBeforeRepeat | src/worker/ingestion/action-matcher.ts:480-483 | yet the matcher accepts them, by trying the earlier direct part again one element further in |
| GroupTypes.SlotsAreConsistent | src/worker/ingestion/group-type-manager.ts:15-43 | for every interleaving of calls on servers with arbitrarily old caches, which may even store an entry read before their own later insert: used columns are 0 to n-1 with n at most 5, each for one type, no assignment changes, an answer is the column of the type or null when five other types have them all, and any two answers for a type agree |
| GroupTypes.RunKeeps | src/worker/ingestion/group-type-manager.ts:15-43 | every cache is a part of the table, and every call under way has only skipped columns that are taken |
| GroupTypes.StepKeeps | src/utils/db/db.ts:1167-1193 | one step of one call keeps that for all servers and calls, and changes no assignment |
| GroupTypes.InsertOrReadKeeps | src/utils/db/db.ts:1172-1192 | the statement extends the columns in use by the next one, reads the column of the type, or finds the index taken by another type |
| GroupTypes.DB.InsertGroupType | src/utils/db/db.ts:1167-1193 | equals the recursion over the columns from the given one: the column of the type if it has one, the first free column, or null past the last |
| GroupTypes.InsertedKeeps | src/utils/db/db.ts:1167-1193 | from a column below which all are taken, that recursion finds the type, or gives it the next free column, or finds all taken, and keeps every assignment |
| GroupTypes.GroupTypeManager.FetchGroupTypes | src/worker/ingestion/group-type-manager.ts:15-29 | gives the remembered entry for 30 seconds; after that, or without one, the table, which it remembers with the current time |
| GroupTypes.GroupTypeManager.FetchGroupTypeIndex | src/worker/ingestion/group-type-manager.ts:31-43 | however old the cache, the answer is the one the table gives |
| GroupTypes.GroupTypeManager.AddGroupProperties | src/worker/ingestion/groups.ts:6-19 | every group whose type has a column ends up in that column, none overwrites another, a group is left out only if all columns belong to other types, and other properties stay |
| GroupTypes.TypesHaveOwnColumns | src/worker/ingestion/groups.ts:13-16 | different types of a team write different property keys |
| LoopTimeout.TransformPreservesMeaning | src/worker/vm/transforms/loop-timeout.ts:9-84 | for every program, state, clock and bound on iterations: the transformed program times out if and only if some located loop activation of the original enters its body after the limit; otherwise it ends like the original, equal on all variables but the generated ones, which clash with none |
| LoopTimeout.TransformedProgramsHalt | src/worker/vm/transforms/loop-timeout.ts:27-36 | when the clock advances by at least one millisecond with every body entry and never runs backwards, every transformed program whose loops have locations halts within timeout * 1000 + 1 body entries for each loop activation, whatever time assignments take |
| LoopTimeout.UnlocatedLoopRunsOn | src/worker/vm/transforms/loop-timeout.ts:52-56 | for each of the three forms, an endless loop without a location is not changed by the transform and no number of iterations ends it |
| LoopTimeout.LoopsHaltExactly | src/worker/vm/transforms/loop-timeout.ts:49-84 | for each of the three loop forms: transformed loops at a location halt for all tests, assignments, located bodies, timeouts, advancing clocks and sufficient fuel, if and only if there is a location |
| LoopTimeout.SimulatesAll | src/worker/vm/transforms/loop-timeout.ts:49-84 | the transformed statements do what the originals do under a limit on each loop, nested loops and fresh names included |
| LoopTimeout.GuardStopsAll | src/worker/vm/transforms/loop-timeout.ts:27-46 | a limit stops a program with a timeout exactly when some loop overruns, and changes nothing otherwise |
| LoopTimeout.InsideChecks | src/worker/vm/transforms/loop-timeout.ts:14-47 | the inserted statement throws exactly when the loop has run longer than the limit |
| LoopTimeout.UidNamesDiffer | src/worker/vm/transforms/loop-timeout.ts:57-57 | generated names differ |
| ElementRoundTrip.ChainReadsBackExactly | src/utils/db/utils.ts:20-52 | parsing a printed chain whose values have even runs of backslashes gives as many elements, each with its tag, sorted classes without quotes and empty names, numbers (0 if missing), text, href, id and attributes with quotes still escaped, in whatever order attributes were printed, if and only if no printed value is empty, ends with a backslash or has a line break |
| ElementRoundTrip.QuotelessChainReadsBack | src/utils/db/utils.ts:20-52 | for elements without quotes, parsing the printed chain gives the same values, attributes, tags and numbers (0 if missing), and the same classes in order |
| ElementRoundTrip.ChainStandsFor | src/utils/db/utils.ts:27-37 | with quotes, every value read is the printed one with a backslash before each quote, and every class read is a printed class from which exactly the quotes are deleted, empty ones left out |
| ElementRoundTrip.TokensReadBackExactly | src/utils/db/utils.ts:107-163 | the same for any chain that splits into the printed elements |
| ElementRoundTrip.OddRunCutsChain | src/utils/db/utils.ts:107-119 | an element whose text is a backslash, a quote, a space and a letter is cut at the space: its chain has more tokens than elements and does not read back |
| ElementRoundTrip.ElementReadsBack | src/utils/db/utils.ts:107-163 | one printed element with such values reads back |
| ElementRoundTrip.ElementReadsBackExactly | src/utils/db/utils.ts:107-163 | one printed element reads back if and only if no printed value is empty, ends with a backslash or has a line break |
| ElementRoundTrip.ValueIsFoundExactly | src/utils/db/utils.ts:116-116 | the parser finds the end of a printed value, whatever follows it, if and only if the value is not empty, does not end with a backslash and has no line break before its last character |
| ElementRoundTrip.QuotedValue | src/utils/db/utils.ts:111-111 | splitting a chain keeps a printed value with escaped quotes, semicolons and spaces in one piece if its runs of backslashes are even |
| ElementRoundTrip.QuotedExactly | src/utils/db/utils.ts:111-111 | the quotes around a printed value enclose it, whatever follows, if and only if there is an even number of backslashes before each of its quotes and at its end |
| ElementRoundTrip.HeadIsSplitOff | src/utils/db/utils.ts:115-115 | tag and classes are split from the attributes at the printed colon, although classes may contain colons |
| ElementRoundTrip.AttributesAreFound | src/utils/db/utils.ts:116-125 | all printed attributes are found again, in order |
| ElementRoundTrip.ChainTokens | src/utils/db/utils.ts:118-119 | a printed chain whose values have even runs of backslashes splits into exactly the printed elements |
| ElementRoundTrip.AssignAllIs | src/utils/db/utils.ts:141-158 | the parsed element depends only on the last value of each attribute, not on their order |
| ElementRoundTrip.ThrowsExactly | src/utils/db/utils.ts:121-125 | an element makes the parser throw if and only if nowhere in it a colon, key characters and an equals sign follow each other |
| ElementRoundTrip.NumberReadsBack | src/utils/db/utils.ts:144-147 | parseInt of a printed number, NaN included, is the number |
| ElementRoundTrip.NumbersAreDecimal | src/utils/db/utils.ts:38-39 | numbers are printed with a minus exactly if they are negative |
| ElementRoundTrip.SortedIsPermutation | src/utils/db/utils.ts:27-27 | sorting keeps the classes |
| ElementRoundTrip.SortedIsInOrder | src/utils/db/utils.ts:27-27 | sorted classes are in order |
| ElementChain.ElementsToString | src/utils/db/utils.ts:20-52 | prints the chain text and leaves every record with sorted classes, even if a record occurs several times |
| ElementChain.ElementToString | src/utils/db/utils.ts:21-50 | prints one element and sorts its classes in place |
| ElementChain.ChainToElements | src/utils/db/utils.ts:107-163 | the loops over elements and attributes give what the round trip is stated about, or the TypeError |
| KafkaProducer.EveryRunRespectsLimits | src/utils/db/kafka-producer-wrapper.ts:49-90 | for every mix of queued records and timed flushes the size counter is the batch's sum, and every batch handed over respects the byte and count limits, or is a single record |
| KafkaProducer.Conservation | src/utils/db/kafka-producer-wrapper.ts:49-90 | batches handed over followed by the current batch are the kept records in order |
| KafkaProducer.NothingLostExactly | src/utils/db/kafka-producer-wrapper.ts:66-69 | they are all queued records in order if and only if no record above the size limit met an empty batch |
| KafkaProducer.SizeIsExactly | src/utils/db/kafka-producer-wrapper.ts:92-104 | the size of a record is the number of bytes of its values, a null counting as 4, and only a record without messages has none |
| KafkaProducer.EverythingArrivesExactly | src/utils/db/kafka-producer-wrapper.ts:66-90 | the batches whose send succeeded followed by the current batch are all queued records if and only if no call drops a record and no call makes a send that fails |
| KafkaProducer.AllSucceedExactly | src/utils/db/kafka-producer-wrapper.ts:49-90 | all sends of a run succeed if and only if each call that makes one, by the size, count and time conditions of the queue, is answered with success |
| KafkaProducer.SmallRecordsAreNeverLost | src/utils/db/kafka-producer-wrapper.ts:49-75 | with every record within the limit nothing is dropped and every batch is within both limits |
| KafkaProducer.NothingWaitsTooLong | src/utils/db/kafka-producer-wrapper.ts:59-62 | after a record is queued, a batch left waiting is no older than the flush frequency |
| KafkaProducer.KafkaProducerWrapper.QueueMessage | src/utils/db/kafka-producer-wrapper.ts:49-64 | changes the fields as the runs do, keeps the invariant, and fails only for a record without messages or a failing send |
| KafkaProducer.KafkaProducerWrapper.FlushBatch | src/utils/db/kafka-producer-wrapper.ts:66-90 | hands the current batch over, starts the next with the appended record, and does nothing for an empty batch |
| KafkaConsumer.GroupIntoBatches | src/utils/utils.ts:356-362 | the loop builds the consecutive batches |
| KafkaConsumer.ChunksAreTheArray | src/utils/utils.ts:356-362 | the batches concatenate to the array, none is empty or too long, and all but the last are full |
| KafkaConsumer.KafkaQueue.EachBatch | src/main/ingestion-queues/kafka-queue.ts:40-85 | processes and resolves sub-batch after sub-batch until done, bailing out, or an error |
| KafkaConsumer.DeliveryIsSafe | src/main/ingestion-queues/kafka-queue.ts:50-74 | on every exit every message at or before the last resolved offset was processed, and a delivery that is done has processed everything up to its end |
| KafkaConsumer.DeliveryResolves | src/main/ingestion-queues/kafka-queue.ts:50-74 | exactly how far a delivery gets: all sub-batches before the exit are processed and resolved, and one that is done has resolved its last message |
| KafkaConsumer.EveryRunLosesNothing | src/main/ingestion-queues/kafka-queue.ts:50-74 | that holds after any run of bail-outs, errors and crashes with redelivery from or before the resolved offset |
| Uuid.High64Is | src/utils/utils.ts:285-296 | the first 64 bits of a UUIDT are the time followed by the series, whatever the random bytes |
| Uuid.MapHoldsCount | src/utils/utils.ts:266-274 | with a clock that does not run backwards the entry of the latest millisecond is its count of ids modulo 65536, although the map is cleared |
| Uuid.MapStaysSmall | src/utils/utils.ts:268-272 | the map never exceeds 10001 entries |
| Uuid.MapIsClearedExactly | src/utils/utils.ts:268-272 | an id leaves the other entries in the map if and only if these are at most 10000 with its own |
| Uuid.IdsIncreaseExactlyUpTo65536PerMs | src/utils/utils.ts:262-301 | with such a clock below 2^48 the first 64 bits of all ids of a run strictly increase if and only if no millisecond saw more than 65536 ids |
| Uuid.UuidTGenerator.GetSeries | src/utils/utils.ts:266-274 | answers the series number of this id and updates the map |
| Uuid.UuidTGenerator.New | src/utils/utils.ts:276-300 | the 16 bytes are the low 48 bits of the time, the series and the random bytes, and the id joins those the order theorem speaks of |
| Uuid.PackTime | src/utils/utils.ts:285-288 | the loop writes the time most significant byte first and leaves the other bytes |
| Uuid.PackSeries | src/utils/utils.ts:291-294 | the loop writes the series most significant byte first and leaves the other bytes |
| Uuid.ValueOf | src/utils/utils.ts:199-206 | the loop computes the big-endian number of the bytes |
| Uuid.Parse | src/utils/utils.ts:180-196 | succeeds exactly for trimmed text of the 8-4-4-4-12 form in either case, with the 16 bytes that print as that text in lower case |
| Uuid.PrintedParsesBack | src/utils/utils.ts:212-241 | any 16 bytes print as valid text that stands for the same bytes |
| CivilTime.FieldsOfInstant | src/main/job-queues/redlocked/s3-queue.ts:34-34 | every instant has valid UTC fields, and they give the instant back |
| CivilTime.EarlierFields | src/main/job-queues/redlocked/s3-queue.ts:104-108 | of two instants the earlier has the lexicographically smaller date, or the same date and the smaller time of day |
| S3Keys.KeyReadsBack | src/main/job-queues/redlocked/s3-queue.ts:98-110 | the key of a job with a four-digit year is found due exactly from the job's timestamp on |
| S3Keys.NameParses | src/main/job-queues/redlocked/s3-queue.ts:99-106 | the printed file name matches the pattern and gives back the fields it was printed from |
| S3Keys.KeyLayout | src/main/job-queues/redlocked/s3-queue.ts:34-41 | the characters of a key: YYYY-MM-DD, a slash, YYYYMMDD-HHMMSS.sssZ, a hyphen, the suffix and the extension |
| S3Keys.TextOrderIsTimeOrder | src/main/job-queues/redlocked/s3-queue.ts:34-41 | for four-digit years an earlier job has the smaller key, and the smaller key belongs to no later job |
| S3Keys.LongYearIsNeverDue | src/main/job-queues/redlocked/s3-queue.ts:34-41 | a job whose year is printed with a sign never matches the pattern |
| S3Queue.EveryRunIsSafe | src/main/job-queues/redlocked/s3-queue.ts:30-74 | in every run of enqueues, polls and left-over connection tests, with reads, jobs and deletes failing: every enqueued job is stored or ran, none ran early, and a key is gone only after its job ran |
| S3Queue.RunsAreCounted | src/main/job-queues/redlocked/s3-queue.ts:61-72 | in every run the job of a key ran as often as a delete failed after it ran, plus once if the key is gone |
| S3Queue.AtMostOnceInRun | src/main/job-queues/redlocked/s3-queue.ts:61-72 | every job of a run ran at most once if and only if no key had two failed deletes, or one and is gone |
| S3Queue.AtMostOnceExactly | src/main/job-queues/redlocked/s3-queue.ts:61-72 | of all runs in which reads, jobs and deletes may end in given ways, none runs a job twice if and only if a failed delete is not among these ways |
| S3Queue.RunTwice | src/main/job-queues/redlocked/s3-queue.ts:61-72 | a run of one enqueue and two polls in which the same job runs twice, because its key could not be deleted |
| S3Queue.StepKeeps | src/main/job-queues/redlocked/s3-queue.ts:52-74 | each step keeps that |
| S3Queue.DueJobIsListedExactly | src/main/job-queues/redlocked/s3-queue.ts:88-115 | when some stored job is due, the first 100 keys include a due job if and only if fewer than 100 stored jobs have a year that is not of four digits |
| S3Queue.ExactlyTheDueAreChosen | src/main/job-queues/redlocked/s3-queue.ts:96-114 | in a run the filter never throws and chooses exactly the due jobs of the listing |
| S3Queue.PollRunsTheDue | src/main/job-queues/redlocked/s3-queue.ts:52-74 | a poll without failures runs exactly the due jobs of the listing, removes exactly their keys, and reports whether there were any |
| S3Polling.PollsRunEveryDueJob | src/main/job-queues/redlocked/s3-queue.ts:52-74 | as many polls without failures as jobs are due, at a fixed time, run and remove all of them if and only if fewer than 100 stored jobs have a year that is not of four digits |
| S3Polling.PollProgresses | src/main/job-queues/redlocked/s3-queue.ts:52-115 | each such poll runs some due job that it removes, and changes nothing else, if and only if that holds |
| S3Polling.BlockedQueue | src/main/job-queues/redlocked/s3-queue.ts:88-115 | a run of 100 jobs for the year 10000 and one job that is due, with the listing that does not contain it |
| S3Queue.TestKeyIsNeverDue | src/main/job-queues/redlocked/s3-queue.ts:142-153 | the test object of a connection is never taken for a job |
| S3Queue.S3JobQueue.Enqueue | src/main/job-queues/redlocked/s3-queue.ts:30-44 | stores the job under its key, or throws for an invalid date |
| S3Queue.S3JobQueue.ReadState | src/main/job-queues/redlocked/s3-queue.ts:52-74 | runs the due keys one by one and deletes each after its job, stopping at the first read, job or delete that fails; a key whose delete fails stays |
| PluginMetrics.IncrementAdds | src/utils/plugin-metrics.ts:55-63 | an increment adds to the named metric only, although a value of 0 is treated as absent |
| PluginMetrics.ExtremesAreKept | src/utils/plugin-metrics.ts:55-70 | from the first value on, Max keeps the greatest and Min the least, and no other metric changes |
| PluginMetrics.PluginMetricsManager.UpdateMetric | src/utils/plugin-metrics.ts:47-73 | changes the one metric of the one plugin config by the operation, and nothing for a config without a plugin |
| ExportRetries.MetricsAddUpExactly | src/worker/vm/upgrades/export-events.ts:93-146 | after every run events seen equal delivered plus undelivered plus queued, if and only if no step fails to enqueue a retry of a batch with events; for a config without a plugin, if and only if as many events were enqueued as taken from the queue again |
| ExportRetries.LostExactly | src/worker/vm/upgrades/export-events.ts:109-128 | the events lost on the way into the queue are none if and only if no step of the run is such a failure |
| ExportRetries.EveryRunBalances | src/worker/vm/upgrades/export-events.ts:93-146 | seen equals delivered plus undelivered plus queued plus lost after every run |
| ExportRetries.AttemptsAreCounted | src/worker/vm/upgrades/export-events.ts:98-145 | delivered plus retry errors plus other errors count every event of every attempt once |
| ExportRetries.CountersAreExact | src/worker/vm/upgrades/export-events.ts:93-146 | after every run each of the five metrics is the number of events of its attempts: first ones, delivered, retry errors, other errors, and given up (an other error, or a retry error after 15 retries) |
| ExportRetries.JobsHoldFlushedBatches | src/worker/vm/upgrades/export-events.ts:111-128 | in every run each queued job holds the events and the id of a batch that was flushed |
| ExportRetries.EveryBatchIsGivenUpInTime | src/worker/vm/upgrades/export-events.ts:109-139 | in every run each batch is attempted at most 16 times over at most 3 * (2^16 - 2) seconds of scheduled delay |
| ExportRetries.JobsRunOut | src/worker/vm/upgrades/export-events.ts:111-128 | jobs run plus jobs queued are at most 15 for each flushed batch |
| ExportRetries.DelayIsGeometric | src/worker/vm/upgrades/export-events.ts:112-115 | the delays before the first n retries add up to 3 * (2^(n+1) - 2) |
| ExportRetries.ExportEvents.ExportEventsWithRetry | src/worker/vm/upgrades/export-events.ts:93-146 | updates metrics and queue as the runs do, and throws exactly for other errors and for a retry that is not enqueued |

## Left out

- Real databases, queues and object stores: each call is one atomic step, and only the constraints that the code relies on are kept.
- PersonInterleaving.TopLevelCallsEnd: counts the steps that are taken and does not say that a waiting statement is answered; PersonLocks says which waits can last, except those on rows of other tables than persons.
- Lost updates of person properties and is_identified across overlapping calls: they are fetched and written without locks, so those columns are described for calls that do not overlap.
- The update of cohort people inside a merge, processEvent, capture, session recordings and person property updates from events.
- PersonSequential.EventsProcessor.HandleIdentifyOrAlias: does not model a $create_alias event without an alias, whose effect depends on a constraint of a schema that is not part of this model.
- PersonSequential.EventsProcessor.CreatePersonIfDistinctIdIsNew: the cache of known distinct ids is a parameter.
- HistoricalExport.AtLeastOnceExactly: does not model a second export started while retry jobs of the first are queued, the delays of retries, the progress bar, or stale boundaries of other threads.
- HistoricalExport.DeliveryIsRange: the Postgres branch reads the timestamps of events; for the ClickHouse branch, which reads ingestion times in whole seconds, it speaks of the aligned rows of ClickHouseGivesThePages.
- SelectorMatching.AcceptedIsSelected: does not model how a selector string is parsed into parts.
- LoopTimeout.TransformPreservesMeaning: does not model labels, try and catch, functions, for-in and for-of loops, or time passed by the inserted statements themselves; the tree is rebuilt as a value instead of edited in place.
- ElementRoundTrip.ChainReadsBackExactly: does not say which chains with odd runs of backslashes split by chance, and does not cover tags and classes with a dot, semicolon, equals sign or space, reserved or unusual attribute keys, fractional numbers and numbers that JavaScript prints with an exponent, and strings outside the Basic Multilingual Plane when classes are sorted.
- KafkaProducer.EverythingArrivesExactly: does not model two sends in flight at once, so it speaks of the order in which batches are handed over.
- Uuid.UuidTGenerator.New: the random bytes and the clock are parameters.
- S3Queue.EveryRunIsSafe: does not model two consumers at once, which a lock of another library is to prevent, the timers that poll, or an enqueue in the middle of a poll, which adds a key that the listing does not hold.
- ExportRetries.EveryRunBalances: does not model sending and resetting the metrics, which loses what is counted while they are being sent.
- Group types named like properties of JavaScript's Object prototype: objects used as maps are plain maps.
- Easy members: clamp, groupBy, team and organization caches, configuration, webhook texts, geolocation, and the HTTP API.
