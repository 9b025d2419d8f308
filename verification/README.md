# API sources of Helix Foundry, modelled and proved

People send batches of JSON pieces to an API source. Each send is checked, merged
into a schema that only grows, held to caps, and stored as an object and a row. Syncs
merge the waiting batches by id into one dense table, and keep the newest pieces as
Markdown documents. This project models that pipeline and proves what its comments
promise over whole runs. Three independent parts of the connectors are modelled
beside it: the attendees of Google calendar events, the append check of S3 file lists,
and the length-preserving blanking of MDX.

`dafny verify dfyconfig.toml` checks everything.

## The files

| file | models |
|---|---|
| `Utf8.dfy` | UTF-8 and the byte order of names |
| `JsonText.dfy`, `Compact.dfy` | JSON text as a grammar, and its compaction |
| `ScanRules.dfy`, `ScanMachine.dfy`, `ScanRuns.dfy`, `Scan.dfy` | the rules of a piece's data, the one-pass stack machine, the proof that it decides them, and its loops |
| `Pieces.dfy`, `Validate.dfy`, `Schema.dfy`, `AcceptedSends.dfy` | pieces, the rules of a send, what sends teach a schema, and what becomes of the pieces accepted |
| `Rows.dfy`, `Encodings.dfy`, `Tables.dfy` | lines and rows with what they cost, what they read back as, and the table's merge |
| `Reads.dfy`, `ReadCosts.dfy` | the forward change read, the backward full read, the snapshot merge, and what a read's budget bounds |
| `Runs.dfy` | sends, locks, syncs and crashes in any order, and what the table shows |
| `Crashes.dfy`, `RunExamples.dfy` | exactly when the last piece of an id wins, and runs in which it does not |
| `Sums.dfy`, `Caps.dfy`, `CapSafety.dfy` | the capacity, and the caps over whole runs |
| `Sends.dfy`, `SendStore.dfy`, `SendMemory.dfy`, `SendRuns.dfy`, `SendAnswers.dfy` | the send protocol as interleaved steps, what they keep of the store and of the memory, its promises over whole runs, and its answers |
| `SendState.dfy`, `SendMirror.dfy` | the state sends hold in memory, the counters of a day, and that memory as the protocol counts it |
| `Documents.dfy`, `KeptPieces.dfy`, `Render.dfy`, `DocumentText.dfy`, `Times.dfy` | the newest pieces as documents, those a full read keeps, their Markdown and what it says, and times |
| `Attendees.dfy`, `FileLists.dfy`, `Mdx.dfy`, `MdxCode.dfy` | the three independent parts |

## What the model assumes

- Hashes of ids are injective; hashes of files keep apart the files at hand, those listed
  and those read before.
- The store's transaction of a send is one atomic attempt; its outcome may be unknown,
  and it may then land later or never. Keys of batch objects are fresh.
- One sync of a source runs at a time. It publishes its table and stores its cursor in
  two transactions, so a crash can fall between them.
- A read's query sees the schema and the batches of one instant; any sends may be
  stored between queries.
- Strings are sequences of Unicode scalar values and every size is in UTF-8 bytes.
  Whether a number is finite is a predicate on its text.
- What a JSON parser reads is a value of the grammar in `JsonText.dfy`, its tokens
  spread with insignificant whitespace; data that is not JSON or not UTF-8 is a case of
  its own.

## Where a promise needs a condition

- "The last piece of an id wins" holds over a run exactly when no publish takes a row back or
  passes one over, which is a condition on the lines each read takes
  (`Crashes.TableIsTheLastLines`, `Crashes.PublishShows`). A check before each read is
  enough: one batch at most, or those above the table's rows up to the newest published
  and up to the stored cursor are in the budget under the schema of now
  (`Crashes.GuardedRunIsExact`), and always passes without a crash or a loss
  (`Crashes.CalmRunIsGuarded`). After any but the crash that skips batches it holds again
  whenever nothing waits (`Runs.CaughtUpIsExact`).
- It fails after a crash between a publish and its cursor, when a field added since leaves
  the retry fewer batches in the budget: exactly the ids with a line in both parts go back
  (`Crashes.ShorterRetryGoesBack`, and `RunExamples.ARowGoesBack` is such a run). A retry
  under the same fields reaches as far (`Crashes.SameFieldsReachAsFar`).
- A table that lost its snapshot is replayed from its first batch. If the replay falls
  short of the cursor still stored, which it does exactly when the batches up to it are two
  at least and past the budget (`Crashes.ReplayStopsShort`), and crashes before it stores
  its own, the batches in between are never merged (`Crashes.SkippedAreMissing`, and
  `RunExamples.APieceIsSkipped`); no other crash loses any (`Runs.StepKeeps`,
  `Runs.OnlyALostTableSkips`).
- The table's real rows and bytes stay within the caps through every crash and loss
  (`CapSafety.CapsHold`), with a condition on three steps for which the code checks no cap
  or too little. A lost table counts for nothing and its merged batches for nothing, though
  its replay merges them again: losing it, and each send until the replay stores its cursor,
  must leave room for the ids of all the batches (`CapSafety.BookedIff`). That is enough;
  without it, over any run, the caps hold exactly when each publish made without room is
  within them (`CapSafety.CapsHoldIff`), which a lost table's replay is exactly when the ids
  it reads and the rows of their last lines are (`CapSafety.ReplayFitsIff`,
  `CapSafety.EveryReplayFitsIff`). In
  `RunExamples.ALostTablePassesACap` one does not, and its replay cannot be published. And
  locking a text field no piece has carried checks no cap;
  `CapSafety.LockFits` says exactly when it stays within them.
- The capacity stays within the caps exactly when each crash between a publish and its
  cursor leaves room to count the published lines twice (`CapSafety.CapacityStaysWithin`).
  A publish alone raises its rows exactly when it adds an id, and its bytes exactly when
  the rows written take more than those they replace (`Capacities.MergeAloneCountsTwice`,
  `Capacities.MergeAloneAddsBytes`), so it may refuse a send that would fit.
- A day's counters are conserved while clock readings do not go back over midnight in the
  order the sends take the workspace's lock (`SendState.CountersConserve`). A send reads its
  clock before it takes the lock (`api/event_sources.go:246` and `:261`), so two sends at
  midnight can break that order though no clock goes back. A release then keeps the balance
  exactly when its reservation is still counted with its share, is of another day, or is not
  counted and has no share (`SendState.ReleaseKeepsIff`, and `SendState.ClockBackGoesBelowSeed` where it is
  not).
- A file list that only appends is recognised exactly, but for an object of the empty
  key added to none (`FileLists.AppendsIsPrefix`, `FileLists.EmptyKeyRefused`).
- A full read leaves a source's documents exactly the newest rows of its table when the
  documents' rows are all there, and otherwise exactly when those of rows that are gone
  leave room for them (`Documents.FullReadLeavesNewest`, `Documents.FullReadEnds`).

## Model

| member | source | states |
|---|---|---|
| `ScanRules.ScanDecides` | plugins/helix-foundry/mock/event-pieces.ts:304-386 | scan accepts a compacted object exactly when it nests at most 64 deep, every number is finite, every surrogate escape is half of a pair and the top-level keys are legal and distinct; the members it returns are in order, and with the keys as written they rebuild the text |
| `ScanRuns.RunDecides` | plugins/helix-foundry/mock/event-pieces.ts:304-386 | the one-pass stack machine over the text of any object never gets stuck and answers what the recursive rules over its grammar answer: the same first problem, or the same members |
| `Scanner.Scan` | plugins/helix-foundry/mock/event-pieces.ts:304-386 | the loop answers what the rules answer for the object whose text it was given |
| `Scanner.FindLoneSurrogate` | plugins/helix-foundry/mock/event-pieces.ts:249-271 | returns the six characters of the first surrogate escape that is not half of a pair, in the units of the string, and nothing when all pair |
| `ScanRules.LoneAmongIffPaired` | plugins/helix-foundry/mock/event-pieces.ts:247-271 | no lone surrogate is found exactly when every high escape is followed by a low one and every low one follows a high one, and the one named is the first that is not |
| `Scanner.FindStringEnd` | plugins/helix-foundry/mock/event-pieces.ts:291-296 | finds the place past the quote that ends the string, skipping escaped characters |
| `Scanner.ReadEscape` | plugins/helix-foundry/mock/event-pieces.ts:252-269 | tells a lone surrogate escape, a paired one and any other apart by the two units at hand |
| `ScanRules.CheckTopMeans` | plugins/helix-foundry/mock/event-pieces.ts:273-286 | the keys checked one at a time against those seen are exactly the legal, distinct ones, none of them seen before |
| `ScanRules.KeyRulesDecide` | plugins/helix-foundry/mock/event-pieces.ts:273-286 | a key is taken exactly when it has 1 to 64 bytes, no control character and no backtick and is not id, received_at or occurred_at, and otherwise the first of these it breaks is named |
| `Compact.Compact` | plugins/helix-foundry/mock/event-pieces.ts:228-245 | the loop copies the text without the whitespace outside its strings |
| `Compact.CompactIdempotent` | plugins/helix-foundry/mock/event-pieces.ts:226-245 | compacting compacted text changes nothing |
| `Compact.CompactDropsOnlySpace` | plugins/helix-foundry/mock/event-pieces.ts:226-245 | tokens spread with any insignificant whitespace compact to the tokens, whole and in order, and nothing else |
| `Compact.CompactPrints` | plugins/helix-foundry/mock/event-pieces.ts:226-245 | every spacing of a JSON value compacts to the one compacted text of that value |
| `Validation.CheckData` | plugins/helix-foundry/mock/event-pieces.ts:390-413 | the checks in order give the first problem of the data, or its compacted text and members |
| `Validation.DataDecides` | plugins/helix-foundry/mock/event-pieces.ts:390-413 | data is taken exactly when it is a JSON object within the size that scan accepts, and then its members rebuild its text |
| `Validation.DataRefused` | plugins/helix-foundry/mock/event-pieces.ts:390-413 | data is refused as not UTF-8, not JSON, not an object or too large exactly when it is, in that order |
| `Validation.MemberKinds` | plugins/helix-foundry/mock/event-pieces.ts:349-360 | each member of accepted data has the type its value's text shows: a string, an object or an array by how it begins, true and false as booleans, null as null, else a number |
| `Validation.ValidIdBytes` | plugins/helix-foundry/mock/event-pieces.ts:150-151 | an id is taken exactly when it has 1 to 128 bytes, each from 0x21 to 0x7E |
| `Validation.CheckPiece` | plugins/helix-foundry/mock/event-pieces.ts:450-470 | the first of a piece's rules it breaks: its id, an earlier piece with the same id, its data |
| `Validation.Validate` | plugins/helix-foundry/mock/event-pieces.ts:432-477 | accepts exactly the sends whose pieces each keep every rule, no id twice, within the piece and byte limits, with the size of their batch object; otherwise names the first rule broken, every earlier piece being fine |
| `Validation.SizeIsKnown` | plugins/helix-foundry/mock/event-pieces.ts:418-420 | the same pieces take the same bytes whenever they arrive |
| `Validation.AcceptedIsSendable` | plugins/helix-foundry/mock/event-pieces.ts:432-477 | an accepted send has distinct ids, pieces whose members rebuild their data, and the size its batch object will have |
| `AcceptedSends.SourceNamesLegal` | plugins/helix-foundry/mock/event-pieces.ts:273-286 | over any run of accepted sends a source only learns field names a column may have |
| `AcceptedSends.AcceptedPieceIsShown` | plugins/helix-foundry/mock/event-pieces.ts:557-574 | under every later schema an accepted piece's row holds each value as sent under its key and null in every other column, and no two keys of the row's text are the same |
| `Utf8.CharStandsFor` | plugins/helix-foundry/mock/event-pieces.ts:105-106 | a character is encoded as the bytes RFC 3629 gives it |
| `Utf8.ByBytes` | plugins/helix-foundry/mock/event-pieces.ts:107-114 | comparing code points compares the UTF-8 encodings byte by byte, and only equal names compare equal |
| `Utf8.NameOrderIsByteOrder` | plugins/helix-foundry/mock/event-pieces.ts:107-114 | code point order is the lexicographic order of the UTF-8 encodings |
| `Utf8.NamesTotal` | plugins/helix-foundry/mock/event-pieces.ts:107-114 | exactly one of before, equal and after holds of two names |
| `Utf8.NamesTransitive` | plugins/helix-foundry/mock/event-pieces.ts:107-114 | the order of names is transitive |
| `Utf8.AscendingUnique` | plugins/helix-foundry/mock/event-pieces.ts:498-500 | a set of names has one ascending order, so a schema has one column order however it was learned |
| `Schemas.MergeSchema` | plugins/helix-foundry/mock/event-pieces.ts:509-550 | the merge accepts exactly when what the members teach has no conflict and adds no field past the cap, and gives that schema and its new fields in order; otherwise it names the first value that does not fit, or the counts |
| `Schemas.LearnPiece` | plugins/helix-foundry/mock/event-pieces.ts:520-534 | one piece's members are learned in order, up to the first that does not fit |
| `Schemas.LearnMeans` | plugins/helix-foundry/mock/event-pieces.ts:509-550 | learning has no order: it succeeds exactly when no field has two non-null types among the schema and the send, and each field then has the one it has |
| `Schemas.AcceptedValuesFit` | plugins/helix-foundry/mock/event-pieces.ts:509-550 | over any run of accepted sends fields only grow, a locked type never changes, and every value accepted is null or of its field's type in every later schema |
| `Schemas.MergeComposes` | plugins/helix-foundry/mock/event-pieces.ts:509-550 | merging one send then another accepts exactly when merging them as one does, the field cap included, with the same schema |
| `Schemas.AcceptsIff` | plugins/helix-foundry/mock/event-pieces.ts:509-550 | a send is accepted exactly when no field would have two types, and it adds no field or the fields with its own are no more than the cap |
| `Schemas.NewFields` | plugins/helix-foundry/mock/event-pieces.ts:543-549 | a send's new fields are those the schema did not have, each with its type in the schema after it, by byte order of name |
| `Schemas.LockDecides` | plugins/helix-foundry/mock/event-pieces.ts:609-638 | a text field is locked exactly when its name is one a column may have and it holds strings or nothing but nulls, or is new and below the cap |
| `Schemas.WithTextIsASend` | plugins/helix-foundry/mock/event-pieces.ts:609-638 | locking a text field is accepted exactly when a send of one string in that field would be, and gives its schema |
| `Encodings.JsonStringReads` | plugins/helix-foundry/mock/event-pieces.ts:135-140 | a string written as JSON is one JSON string that decodes to it |
| `Encodings.LineReads` | plugins/helix-foundry/mock/event-pieces.ts:422-430 | a stored line is the compact text of the object of its piece and arrival, and a newline |
| `Encodings.RowReads` | plugins/helix-foundry/mock/event-pieces.ts:557-574 | a row is the compact text of the object of its own columns and then its fields, each under its name with its value |
| `Encodings.RowKeysDistinct` | plugins/helix-foundry/mock/event-pieces.ts:98-103 | whatever padding and merging a row went through, no two keys of its text are the same |
| `Rows.PadTextPads` | plugins/helix-foundry/mock/event-pieces.ts:577-580 | padding the text of a row gives the text of the row with those fields null |
| `Rows.RowWithinLine` | plugins/helix-foundry/mock/event-pieces.ts:837-839 | a row and its newline take at most its line, the null fill of the schema and one byte less than the slack, even where a key is longer once encoded |
| `Rows.RowSlackIsUsed` | plugins/helix-foundry/mock/event-pieces.ts:837-839 | a piece with no fields and no time takes exactly that much |
| `Rows.FillWithout` | plugins/helix-foundry/mock/event-pieces.ts:554-555 | the null fill of a set of fields is the sum of each field's, in whatever order |
| `Tables.RowShows` | plugins/helix-foundry/mock/event-pieces.ts:557-574 | a row shows its piece: its own columns, and each field of the schema once, with the value of the piece's last member of that name as sent, or null when it has none |
| `Tables.RowHoldsWhatWasSent` | plugins/helix-foundry/mock/event-pieces.ts:557-574 | the row of a piece of distinct keys holds every value sent under a field of the schema, as sent, and null for each field it lacks, the fields by byte order of name |
| `Tables.MergeShows` | plugins/helix-foundry/backend/connector/events.go:477-481 | merging lines into a table that shows some leaves one that shows both, the later line of an id winning, under the wider schema |
| `Tables.MergeCarries` | plugins/helix-foundry/backend/snapshot/changes.go:500-504 | after a merge every row carries every column of the schema read |
| `Reads.Cut` | plugins/helix-foundry/backend/events/budget.go:28-45 | the loop takes the run of batches Takes counts |
| `Reads.TakesIff` | plugins/helix-foundry/backend/events/budget.go:28-45 | a read takes at least so many batches exactly when they are one at most or within every bound, so it takes the longest run in budget and always the first |
| `ReadCosts.CostIs` | plugins/helix-foundry/backend/events/budget.go:28-45 | what a read counts of its batches is their lines' bytes and, for each line, the schema's null fill and 64 bytes a field |
| `ReadCosts.ReadWithinBudget` | plugins/helix-foundry/backend/events/budget.go:17-45 | a read that takes more than one batch is within every bound, the rows and parsed fields a merge of it holds included, up to the slack; and one batch more would have been past one |
| `Reads.EventStore.EventBatchesAfter` | plugins/helix-foundry/backend/connector/events.go:49-56 | the schema and the batches after a cursor that one read takes, from one instant: a contiguous run, not empty while any waits |
| `Reads.Start` | plugins/helix-foundry/backend/connector/events.go:250-285 | the bound is the newest batch one read takes after the table's cursor, or that cursor when none waits |
| `Reads.Walk` | plugins/helix-foundry/backend/connector/events.go:316-337 | whatever sends come between the queries, the batches taken are exactly those above the table's cursor up to the bound, each once and in order, and the last schema read holds every field of them; batches are gone exactly when fewer are stored than the bound |
| `Reads.TakeThrough` | plugins/helix-foundry/backend/connector/events.go:330-336 | of a run of batches, those up to the bound |
| `Reads.WriteBatches` | plugins/helix-foundry/backend/connector/events.go:348-369 | going back from the last line, the first sightings are the last lines of each id |
| `Reads.CopySnapshot` | plugins/helix-foundry/backend/connector/events.go:399-444 | the snapshot's other rows, each padded, complete the table |
| `Reads.FullRead` | plugins/helix-foundry/backend/connector/events.go:292-390 | the rows written list exactly the table with the batches merged, each id once, every row with every column of the schema read; without a snapshot the whole source is replayed |
| `Reads.FullSync` | plugins/helix-foundry/backend/connector/events.go:250-390 | a read started and read on to its bound never finds its batches gone, however many sends come between |
| `Reads.Changes` | plugins/helix-foundry/backend/connector/events.go:477-545 | the upserts are the rows of every line of the batches one read takes, in order, and the next cursor is the newest of them |
| `Reads.MergeSnapshot` | plugins/helix-foundry/backend/snapshot/changes.go:495-679 | the last upsert of each id wins, the rows no upsert replaces are copied padded, and each id is written once |
| `Reads.ChangeSync` | plugins/helix-foundry/backend/syncer/syncer.go:802-860 | a sync by changes leaves exactly the table a full read of the same batches under the same schema leaves, or the table as it was when it reads none |
| `Reads.MergeAdds` | plugins/helix-foundry/backend/snapshot/changes.go:495-506 | merging lines into a table is its padded rows with what the lines alone would make put over them |
| `Runs.StepKeeps` | plugins/helix-foundry/backend/syncer/syncer.go:302-324 | every step of a source, crashes included, keeps each row at a line of its id no older than the cursor says, but for the one crash that skips batches |
| `Crashes.TableIsTheLastLines` | plugins/helix-foundry/backend/connector/events.go:477-481 | over any run, whatever is lost, crashes or retries, every state's table is exactly the last line of each id among the batches merged, exactly when no publish took a row back or passed one over |
| `Crashes.PublishShows` | plugins/helix-foundry/backend/connector/events.go:477-481 | a publish leaves other than the last lines exactly the ids with a line read and a later one merged before, which show the earlier, and those with a line in batches neither merged nor read, which show what they did |
| `Crashes.GuardedRunIsExact` | plugins/helix-foundry/backend/connector/events.go:477-481 | in a run whose every read reaches the newest batch published and the stored cursor, the table is in every state exactly the last line of each id merged, and once a cursor is stored, of each up to it |
| `Crashes.CalmRunIsGuarded` | plugins/helix-foundry/backend/connector/events.go:477-481 | in a run without a crash or a loss every read reaches that far |
| `Crashes.ReachesIff` | plugins/helix-foundry/backend/events/budget.go:28-45 | a read takes the batches up to one exactly when they are one at most or in the budget under the schema of that instant |
| `Crashes.SameFieldsReachAsFar` | plugins/helix-foundry/backend/events/budget.go:28-45 | under the same fields a retry takes no fewer batches |
| `Runs.CaughtUpIsExact` | plugins/helix-foundry/backend/connector/events.go:477-481 | however a run crashed and retried, once nothing waits the table is exactly the last line of each id ever stored |
| `Runs.NothingIsLost` | plugins/helix-foundry/backend/syncer/syncer.go:302-324 | in any state every id of the batches up to the cursor has its row, showing its last line among them or a later one |
| `Runs.OnlyALostTableSkips` | plugins/helix-foundry/backend/connector/events.go:240-248 | a run that never loses its table never skips a batch |
| `Crashes.ShorterRetryGoesBack` | plugins/helix-foundry/backend/syncer/syncer.go:302-324 | after a crash between a publish and its cursor the retry takes fewer batches exactly when the published are two at least and no longer in the budget; it then takes back exactly the ids with a line it reads and another later among the published, and otherwise leaves the last line of every id |
| `Crashes.ReplayStopsShort` | plugins/helix-foundry/backend/connector/events.go:240-248 | a lost table's replay falls short of the stored cursor exactly when the batches up to it are two at least and past the budget |
| `Crashes.SkippedAreMissing` | plugins/helix-foundry/backend/connector/events.go:240-248 | after such a replay crashes before storing its cursor, the rows other than the last lines up to the stored one are exactly those of ids with a line in between: missing where they have none before, an earlier line where they do |
| `RunExamples.ARowGoesBack` | plugins/helix-foundry/backend/syncer/syncer.go:302-324 | a run from a new source in which a send adds a field between a crash and its retry, and a row goes back to an older piece |
| `RunExamples.APieceIsSkipped` | plugins/helix-foundry/backend/connector/events.go:240-248 | a run from a new source, syncing one batch at a time, in which a piece is skipped though nothing waits |
| `Capacities.CapacityCounts` | plugins/helix-foundry/backend/events/caps.go:64-87 | while a table is within 4 GiB its size is read exactly from 32 bits, and the capacity counts every row padded and every waiting line at its cost |
| `Capacities.LinesCostIs` | plugins/helix-foundry/backend/events/caps.go:64-87 | waiting lines count for their bytes and, each, the schema's null fill and ten bytes more |
| `Capacities.ProjectDecides` | plugins/helix-foundry/backend/events/caps.go:89-107 | a send fits exactly when, with its lines waiting too, the rows and lines are no more than the rows allowed and their bytes, each counted full, within the bytes |
| `Capacities.RowWithinCost` | plugins/helix-foundry/mock/event-pieces.ts:837-839 | a line's row, padded to any later schema, takes less than the line counts for |
| `Capacities.SyncKeepsCapacity` | plugins/helix-foundry/mock/event-pieces.ts:845-850 | a sync that merges the first of the waiting lines and moves its cursor never raises the capacity, whatever the schema has become |
| `Capacities.MergeAloneCountsTwice` | plugins/helix-foundry/backend/syncer/syncer.go:302-324 | a publish whose cursor is not yet stored raises the capacity's rows exactly when it adds an id |
| `Capacities.MergeAloneAddsBytes` | plugins/helix-foundry/backend/syncer/syncer.go:302-324 | and its bytes exactly when the rows it writes take more than those they replace |
| `Capacities.CapacityBooks` | plugins/helix-foundry/mock/event-pieces.ts:881-885 | a capacity within the caps is room for every row and waiting line, whichever are merged |
| `Capacities.MergeBooked` | plugins/helix-foundry/mock/event-pieces.ts:881-885 | room booked for waiting lines is room for their rows once merged, under any schema read since |
| `CapSafety.SendCounts` | plugins/helix-foundry/backend/events/caps.go:89-107 | what a send's projection counts is the capacity once it is stored |
| `CapSafety.StepBooked` | plugins/helix-foundry/mock/event-pieces.ts:881-885 | every step keeps room within the caps for the table, whichever of the batches a sync may yet merge are merged, where the steps no cap is checked for leave it |
| `CapSafety.BookedIff` | plugins/helix-foundry/backend/events/caps.go:64-87 | there is room exactly when the ids of the rows and of the lines ahead are no more than the rows allowed, and the most each may take comes to no more than the bytes |
| `CapSafety.CapsHold` | plugins/helix-foundry/mock/event-pieces.ts:881-885 | in every state of a run, whatever was lost or crashed, the table's real rows and bytes are within the caps and its size is read exactly |
| `CapSafety.ReplayWrites` | plugins/helix-foundry/backend/connector/events.go:240-248 | a lost table's replay writes exactly one row for each id of the batches it reads, of its last line among them, and their bytes |
| `CapSafety.CapsHoldIff` | plugins/helix-foundry/mock/event-pieces.ts:881-885 | over any run, with no condition on its steps, every table is within the caps exactly when each publish from a state without room is |
| `CapSafety.ReplayFitsIff` | plugins/helix-foundry/backend/events/caps.go:64-87 | a lost table's replay is within both caps exactly when the ids of the batches it reads are no more than the rows allowed and the rows of their last lines take no more than the bytes |
| `CapSafety.EveryReplayFitsIff` | plugins/helix-foundry/backend/events/caps.go:64-87 | every replay, however it is cut, is within both caps exactly when the ids of all the batches are within the rows and at every cut the rows of the last lines are within the bytes |
| `RunExamples.ALostTablePassesACap` | plugins/helix-foundry/backend/events/caps.go:64-87 | a run from a new source in which a send accepted after its table is lost makes the replay come to more rows than allowed |
| `CapSafety.CapacityStaysWithin` | plugins/helix-foundry/mock/event-pieces.ts:845-885 | in a run that never loses its table, the capacity stays within the caps in every state exactly when each crash between a publish and its cursor leaves room to count the published lines again |
| `CapSafety.StepFitsIff` | plugins/helix-foundry/mock/event-pieces.ts:845-885 | no other step takes the capacity past the caps |
| `CapSafety.LockCosts` | plugins/helix-foundry/mock/event-pieces.ts:609-638 | locking a text field no piece has carried costs every row and every waiting line its null, which nothing checks |
| `CapSafety.LockFits` | plugins/helix-foundry/mock/event-pieces.ts:609-638 | such a lock stays within the caps exactly when the capacity had that much room |
| `SendRuns.ExactlyOnce` | plugins/helix-foundry/backend/api/event_sources.go:505-520 | however calls and retries interleave, fail and crash, a source stores at most one batch for a client token, and every success names that batch, which holds the pieces sent |
| `SendRuns.DifferentPiecesRefused` | plugins/helix-foundry/backend/api/event_sources.go:616-653 | once a send of a token is answered as stored, one of other pieces is never answered as stored or replayed |
| `SendAnswers.SameIsSaid` | plugins/helix-foundry/mock/event-pieces.ts:478-493 | two sends are the same exactly when they say the same ids, times and data in order |
| `SendAnswers.SameSize` | plugins/helix-foundry/backend/api/event_sources.go:622-640 | the same pieces encode to the same size, so a batch of another size need not be read |
| `SendAnswers.ReplayAnswers` | plugins/helix-foundry/backend/api/event_sources.go:616-653 | in every state of every run a replay answers as the batch it was sent to exactly when its pieces are that batch's, and as an error otherwise, and stores nothing |
| `SendAnswers.RetryLooksUp` | plugins/helix-foundry/backend/api/event_sources.go:505-520 | once a call of a token is answered with success, every later one that looks the token up, first or after a conflict, is sent to that batch |
| `SendAnswers.RetryAnswers` | plugins/helix-foundry/backend/api/event_sources.go:505-520 | and its replay is answered by that batch exactly when it says what the first call said |
| `SendAnswers.CommitAnswers` | plugins/helix-foundry/backend/api/event_sources.go:580-609 | a commit of unknown outcome fails and leaves its row to land, one whose token is taken answers as the batch that took it, a refused one drops its object, and any other stores its row and names it |
| `SendAnswers.LandAnswers` | plugins/helix-foundry/backend/api/event_sources.go:598-603 | a commit of unknown outcome lands unless its token was taken meanwhile; a batch of its token is stored either way |
| `SendAnswers.DropAnswers` | plugins/helix-foundry/backend/api/event_sources.go:584-601 | a send that did not commit drops its object, if the store lets it, and looks up the batch it lost to, or fails |
| `SendAnswers.CrashLeaves` | plugins/helix-foundry/backend/api/event_sources.go:598-603 | a crash answers nothing with success and takes nothing from the store, and each transaction it cut off may still land, and nothing else |
| `SendAnswers.SomeCallProceeds` | plugins/helix-foundry/backend/api/event_sources.go:446-609 | while a call has no answer some call can take its next step: sends never wait on each other in a circle |
| `SendAnswers.AllCanBeAnswered` | plugins/helix-foundry/backend/api/event_sources.go:446-609 | from every state of every run the calls at hand can all be answered without a failure or a crash, in no more steps than they have left |
| `SendAnswers.SendCanBeStored` | plugins/helix-foundry/backend/api/event_sources.go:446-615 | while a place, a slot and its source's lock are free, a send of a token no batch has can be stored, its object holding its pieces, and is answered by its own batch |
| `SendAnswers.RetryCanBeAnswered` | plugins/helix-foundry/backend/api/event_sources.go:505-520 | while a place is free a retry of a stored batch can be answered by it, with nothing stored |
| `SendAnswers.LoserCanBeAnswered` | plugins/helix-foundry/backend/api/event_sources.go:584-592 | of two sends of the same token and pieces at once, the one that commits second can be answered as the first |
| `SendRuns.StoredForever` | plugins/helix-foundry/backend/store/foundry_event_sources.go:323-418 | a batch, once stored, stays stored as it was |
| `SendRuns.NoBatchLosesItsObject` | plugins/helix-foundry/backend/api/event_sources.go:554-609 | in every state each batch's object is stored whole, though objects are dropped while commits of unknown outcome may still land |
| `SendRuns.OneTransactionPerSource` | plugins/helix-foundry/backend/api/event_sources.go:337-358 | two active sends of a source hold the same state and so the same commit lock, though idle states are swept, and at most one of them holds it |
| `SendRuns.PermitsBounded` | plugins/helix-foundry/backend/api/event_sources.go:472-483 | at most so many sends are checked and so many transactions run, and no send waiting for or past its commit lock holds a checking place |
| `SendRuns.PermitsReturned` | plugins/helix-foundry/backend/api/event_sources.go:342-358 | once every call has answered, on whatever paths, every place, slot, state and lock is given back |
| `SendStore.StepKeepsStore` | plugins/helix-foundry/backend/api/event_sources.go:446-609 | every step, crashes and late commits included, keeps one row for a token, each row backed by its object, and each success naming its own row |
| `SendMemory.StepKeepsMemory` | plugins/helix-foundry/backend/api/event_sources.go:190-224 | every step keeps the counts in memory equal to what the calls hold |
| `SendState.EventSends.Enter` | plugins/helix-foundry/backend/api/event_sources.go:190-216 | the state of a source and its workspace is held, made when missing; state that is held is never dropped or replaced |
| `SendState.EventSends.Sweep` | plugins/helix-foundry/backend/api/event_sources.go:195-201 | a minute after the last sweep all state nothing has held for ten minutes is dropped, before that none, and never any other |
| `SendState.EventSends.Leave` | plugins/helix-foundry/backend/api/event_sources.go:218-224 | both are let go of, idle from now when no holder is left |
| `SendState.EventSends.Limit` | plugins/helix-foundry/backend/api/event_sources.go:238-290 | a granted send has a token of each bucket and its share of the day, seeded when the day is new; a refused one has given back what it took |
| `SendState.EventSends.GiveBack` | plugins/helix-foundry/backend/api/event_sources.go:292-305 | the tokens are given back, and the share while its day is still the one counted |
| `SendState.CountersConserve` | plugins/helix-foundry/backend/api/event_sources.go:244-305 | under any interleaving with clock readings in order, a day's counters are their seed and the reservations still held or stored, never below the seed, and no reservation takes them past the caps |
| `SendState.EventKeeps` | plugins/helix-foundry/backend/api/event_sources.go:244-305 | each reservation, release and stored send keeps that balance |
| `SendState.GrantedIff` | plugins/helix-foundry/backend/api/event_sources.go:244-290 | a reservation is granted exactly when what the day was seeded with, the reservations kept so far and its own share are within the caps |
| `SendState.ReleaseKeepsIff` | plugins/helix-foundry/backend/api/event_sources.go:292-305 | giving a hold back keeps the balance exactly when its day is not the one counted, or its reservation is still kept with its share, or it has none |
| `SendState.ClockBackGoesBelowSeed` | plugins/helix-foundry/backend/api/event_sources.go:246-272 | with readings that go back over midnight in the order of the lock, a release takes the counter below its seed |
| `SendMirror.EnterMirrors` | plugins/helix-foundry/backend/api/event_sources.go:190-216 | entering the state in memory is the protocol's step: what it drops no call holds, and the state held is the one the protocol numbers |
| `SendMirror.LeaveMirrors` | plugins/helix-foundry/backend/api/event_sources.go:218-224 | and so is leaving it |
| `Documents.NewestOrders` | plugins/helix-foundry/mock/event-pieces.ts:678-698 | newest is the pieces, each once, by arrival from the last, and those of one instant by byte order of id |
| `Documents.NewestOfNewest` | plugins/helix-foundry/backend/events/window.go:29-34 | keeping the newest n of some pieces, then of those and more, keeps the newest n of all |
| `Documents.Window.Push` | plugins/helix-foundry/backend/events/window.go:47-58 | the window holds the newest n of what it has been offered |
| `Documents.DocumentSet.PutDocument` | plugins/helix-foundry/backend/connector/documents.go:48-68 | the set is its newest n with the document in place of its own earlier one; a document it held is moved in place, and one outside the window changes nothing |
| `Documents.OfferPieces` | plugins/helix-foundry/backend/connector/events.go:658-679 | the held versions are offered first, then the rest, each newest first, and each put is trimmed before the next |
| `Documents.EachOnce` | plugins/helix-foundry/backend/connector/events.go:658-679 | each kept piece is offered once |
| `Documents.PartsOrdered` | plugins/helix-foundry/backend/connector/events.go:555-559 | both parts are offered newest first |
| `Documents.HeldMoveInPlace` | plugins/helix-foundry/backend/connector/documents.go:58-68 | while held versions are offered no document leaves the set |
| `Documents.ResendsStay` | plugins/helix-foundry/backend/connector/documents.go:60-68 | an identical resend of a held piece is moved in place, never trimmed and then added again |
| `Documents.NewestFirstAddsAgain` | plugins/helix-foundry/backend/connector/documents.go:60-68 | offered newest first alone, one can be trimmed and then added again |
| `Documents.SetEndsNewest` | plugins/helix-foundry/backend/connector/documents.go:48-58 | whatever the order, with no piece older than its document, the set ends as the newest n of its other documents and the pieces offered |
| `Documents.FullReadLeavesNewest` | plugins/helix-foundry/backend/connector/documents.go:48-58 | a full read whose table covers the set's documents leaves the set exactly the newest n rows of the table |
| `Documents.FullReadEnds` | plugins/helix-foundry/backend/connector/documents.go:58-68 | with documents whose rows are gone, removed at its end, the set is the first of the newest n rows, and all of them exactly when those documents leave them room |
| `KeptPieces.KeepRows` | plugins/helix-foundry/backend/connector/events.go:366-434 | offering every row written to the window keeps the newest n of exactly those rows |
| `KeptPieces.SyncDocuments` | plugins/helix-foundry/backend/connector/events.go:292-390 | a full read offers the newest n rows of the table it writes as documents, and what it did not offer is removed |
| `Attendees.PeopleOf` | plugins/helix-foundry/backend/connector/google.go:925-945 | each person an event invites once by email, no room or other resource |
| `Attendees.EventGone` | plugins/helix-foundry/backend/connector/google_changes.go:515-535 | the event's rows go, those the table held and those this read wrote |
| `Attendees.EventChanged` | plugins/helix-foundry/backend/connector/google_changes.go:537-568 | the event's rows become its people's, in place of those the table held and those this read wrote |
| `Attendees.EventChanges` | plugins/helix-foundry/backend/connector/google_changes.go:459-475 | what the writer merges after any sequence of copies is each copy applied at once |
| `Attendees.LastCopyDecides` | plugins/helix-foundry/backend/connector/google_changes.go:426-434 | an event's attendees end as those of its last copy in the window, none if its last relevant copy is cancelled, and as they were if it has none |
| `FileLists.DecodeEncodes` | plugins/helix-foundry/backend/connector/s3_changes.go:46-55 | the bytes of a list decode to the hashes it was given |
| `FileLists.SortedSorts` | plugins/helix-foundry/backend/connector/s3_changes.go:45-46 | sorting the hashes orders them and keeps each as often as it was |
| `FileLists.ListOf` | plugins/helix-foundry/backend/connector/s3_changes.go:38-55 | the list holds the files' hashes in order and their greatest key |
| `FileLists.Appended` | plugins/helix-foundry/backend/connector/s3_changes.go:54-86 | with distinct keys, and hashes that keep apart the files at hand, no reason is given exactly when every file has an ETag, every earlier file is still there and every other sorts after the last key; the added are then those others |
| `FileLists.HashesKeepApart` | plugins/helix-foundry/backend/connector/s3_changes.go:33-36 | some hash of 64 bits keeps apart any files there are no more of than hashes |
| `FileLists.AppendsIsPrefix` | plugins/helix-foundry/backend/connector/s3_changes.go:54-86 | no reason means that, in key order, the files are the earlier ones followed by the added, and the other way round, exactly when no object of the empty key is added to none |
| `FileLists.EmptyKeyRefused` | plugins/helix-foundry/backend/connector/s3_changes.go:76-77 | an object of the empty key added to none is refused |
| `Mdx.BlankMdx` | plugins/helix-foundry/mock/mdx.ts:34-108 | terminates, and writes the text with exactly its code blanked |
| `Mdx.FindClosing` | plugins/helix-foundry/mock/mdx.ts:19-32 | the loop finds the place past the brace that closes the one it starts at, strings skipped |
| `MdxCode.ExpressionEnds` | plugins/helix-foundry/mock/mdx.ts:19-32 | the expression at a brace ends at the first place its braces, those in strings left out, are as many closed as open, and is none exactly when there is no such place |
| `MdxCode.CodeEndIs` | plugins/helix-foundry/mock/mdx.ts:81-89 | inline code is a whole run of backticks closed, in its line, at the next place that has as many |
| `MdxCode.FenceIs` | plugins/helix-foundry/mock/mdx.ts:12-13 | a fence is three or more of either mark, all there are, after three spaces at most |
| `MdxCode.EsmIs` | plugins/helix-foundry/mock/mdx.ts:12-13 | a block starts with a line whose first word is import or export |
| `MdxCode.CodeIsExactly` | plugins/helix-foundry/mock/mdx.ts:34-108 | the characters blanked are exactly those of the blocks and of the expressions the scan comes to; fenced code, inline code and braces that never close are kept |
| `MdxCode.TextLineMarks` | plugins/helix-foundry/mock/mdx.ts:75-106 | in a line of text an expression is blanked whole and a brace that never closes is kept |
| `MdxCode.OneExpression` | plugins/helix-foundry/mock/mdx.ts:24-32 | a line of text around one expression comes out with the expression as spaces and the rest as it was |
| `Mdx.MaskedKeepsOffsets` | plugins/helix-foundry/mock/mdx.ts:13-17 | whatever is blanked, the UTF-8 length is the same and newlines are at exactly the byte offsets that had one |
| `Mdx.EachOffsetKept` | plugins/helix-foundry/mock/mdx.ts:1-17 | each character is copied, or blanked to spaces of its length, at its own byte offset |
| `Mdx.PlainIsKept` | plugins/helix-foundry/mock/mdx.ts:1-10 | text with no brace and no import or export line is left as it is |
| `Mdx.FencedIsKept` | plugins/helix-foundry/mock/mdx.ts:57-67 | from a line that opens fenced code every line to the one that closes it is kept, and what follows is read as without it |
| `Mdx.FenceEndCloses` | plugins/helix-foundry/mock/mdx.ts:57-67 | the first line of the same mark, and at least as long, is the one that closes it |
| `Mdx.BlockIsBlanked` | plugins/helix-foundry/mock/mdx.ts:68-73 | from a line that starts an import or export block every line to the next blank one is blanked, or to one that opens fenced code, after which the block goes on; the blank line ends it |
| `Rendering.RenderStable` | plugins/helix-foundry/mock/event-pieces.ts:786-833 | a row renders the same whenever it arrived, whatever the order of its columns and however many are null or missing |
| `DocumentText.DocumentIs` | plugins/helix-foundry/mock/event-pieces.ts:786-833 | a document is its heading, the piece's id and time, the lines that are kept, which are all but those of fields inside objects past the first 50, and its text as it is when not blank; it is titled by its text or else its id |
| `DocumentText.TitleIs` | plugins/helix-foundry/mock/event-pieces.ts:722-732 | a text has a title exactly when it is not blank: the words of its first line that is not, a space between each two, cut at 120 characters |
| `DocumentText.OneLineIs` | plugins/helix-foundry/mock/event-pieces.ts:718-720 | on one line a string has its lines that are not empty, a space between each two, cut at 500 characters |
| `DocumentText.LinesAreValues` | plugins/helix-foundry/mock/event-pieces.ts:764-833 | there is a line for a value exactly where it is one to three keys deep, not of the text field, and has something to show: its path and what it shows |
| `DocumentText.FieldHasItsLine` | plugins/helix-foundry/mock/event-pieces.ts:816-833 | a field with something to show has one line and no more, after those of the fields before it in byte order and before the others |
| `DocumentText.KeysInOrder` | plugins/helix-foundry/mock/event-pieces.ts:764-784 | so do the keys of an object among its lines |
| `DocumentText.ScalarShown` | plugins/helix-foundry/mock/event-pieces.ts:740-762 | a boolean shows as true or false, a number as written, a string on one line, null and an object as nothing |
| `DocumentText.ArrayShown` | plugins/helix-foundry/mock/event-pieces.ts:740-762 | an array shows its first 20 items and how many more it has, or how many records it has when any item is one |
| `Rendering.PaddedIsSame` | plugins/helix-foundry/mock/event-pieces.ts:577-580 | padding a row with nulls keeps every field's value |
| `Rendering.AnyOrderIsSame` | plugins/helix-foundry/mock/event-pieces.ts:786-833 | the same columns in any order are the same piece |
| `Rendering.WriteLines` | plugins/helix-foundry/mock/event-pieces.ts:815-823 | the nested lines written are the first 50 across all fields, and no other line is cut |
| `Times.RoundTrip` | plugins/helix-foundry/mock/event-pieces.ts:218-222 | an Instant of the years 1000 to 9999 written as RFC 3339 reads back as itself |
| `Times.WritesNoZeros` | plugins/helix-foundry/mock/event-pieces.ts:218-222 | what is written has no fraction for whole seconds and none that ends in a zero |
| `Times.ParsesTheMoment` | plugins/helix-foundry/mock/event-pieces.ts:161-212 | text that reads parses to the Instant of the same UTC moment, the fraction's whole microseconds kept and what is beyond dropped, unless its year in UTC is out of range |
| `Times.ReadInverts` | plugins/helix-foundry/mock/event-pieces.ts:158-159 | parts written in any spelling, an hour of one digit, a comma, an offset, read back as themselves |
| `Times.OnlySpellingsRead` | plugins/helix-foundry/mock/event-pieces.ts:158-159 | only such text reads |
| `Times.TextOrderIsTimeOrder` | plugins/helix-foundry/mock/event-pieces.ts:65-70 | Instants sort as text in the order of time |
| `Times.ShiftedNumber` | plugins/helix-foundry/mock/event-pieces.ts:194-198 | shifting a date by days gives the date of that many days on |
| `Times.CalendarDays` | plugins/helix-foundry/mock/event-pieces.ts:181-198 | days counted month by month and year by year are those of the calendar's closed form |

## Left out

- S3, gzip, MySQL, gRPC, metrics, logs and scratch files: objects are a map, batches a sequence, and the spool of `offerPieces` memory.
- Refusal wording, quoting, grouping of thousands and the warning text: refusals are datatypes that carry what the wording says.
- Corrupt batches and snapshots, and reads that fail on I/O: a read of a stored batch gives its lines.
- The token buckets of `golang.org/x/time/rate`: a bucket grants or refuses, and only how many tokens are out is counted.
- Scanner.Scan: unpaired UTF-16 halves in the text itself are not representable, because text is decoded from UTF-8 before it is scanned.
- Reads.MergeSnapshot: does not model version columns or deletes, which an API source's table has none of, nor the counts and the batch file; a merge that changes nothing keeps the old snapshot, whose rows are the same.
- Reads.EventStore.EventBatchesAfter: queries of the store are one step each, so a read that fails midway is a crash of the sync.
- CapSafety.CapsHold: a sync past a cap fails for good; here a publish has no such check, and within this condition none would need it. The bytes the condition counts are those a waiting line is held to, which its row never takes in full.
- CapSafety.CapacityStaysWithin: excludes a lost table, after which the capacity says nothing of the batches its replay merges again; CapSafety.CapsHold covers the rows themselves.
- Runs.StepKeeps: a change read with nothing waiting changes nothing and is no step; the choice between a change read and a full one is open to either where the table is there.
- SendRuns.ExactlyOnce: the actor checks, the pause, the schema and the caps are one refusal of the store or an early failure, because no property of the protocol depends on which.
- SendState.EventSends.GiveBack: a commit of unknown outcome gives its share back though its batch may have landed, as the code does, so the counter is then short until the day is seeded again.
- SendState.EventSends.Enter: the commit lock and the cached table size of a source's state are not fields here; Sends.dfy models the lock.
- Documents.Window.Push: the window's heap is an ordered sequence with the oldest last, because its layout comes from the library's heap.
- Documents.DocumentSet.PutDocument: every put is published on its own, the most trims a read can make final; pausing, malformed ids and the truncation of long text are not modelled, and a held document whose row is gone keeps its place until the read ends.
- Documents.FullReadEnds: excludes a held document newer than its row, which a table has only after a row went back (Crashes.ShorterRetryGoesBack).
- KeptPieces.KeepRows: the window is offered the rows once all are written, in the order they were, because nothing reads it between; a row's arrival as a time and the version it renders to are functions of the row.
- Rendering.RenderStable: the path from a stored row's text to its parsed values is a JSON parser's and is not modelled.
- Times.ParsesTheMoment: the calendar of the JavaScript Date is the proleptic Gregorian calendar by day numbers.
- Attendees.EventChanges: sync tokens, paging, resets, the calendar_events table and an unfollowed attendees table are not modelled; the window test is a case of the copy.
- FileLists.ListOf: the base64 text of the bytes and the sorting routine are the library's; sorting is a function proved to sort.
- Mdx.BlankMdx: JavaScript strings are UTF-16, scalar values here, because the code cuts text only at ASCII characters.
- The other connectors, configuration, prices, proto mapping, the SQL and MCP servers and the front ends: they repeat simpler patterns or are bound to libraries.
