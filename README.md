# Tasks tracker core, modelled in Dafny

This project models the core of a personal task tracker: a command-line tool
that records task entries (a title, notes, tags and links) in SQLite and lists
them by date range and tags. The model covers the following parts of the system:

- **Entities.** Tags normalise their title when built. A task entry's title
  setter normalises the title and recomputes the entry's slug. A slug is the
  first three '-' segments of a generated slug.
- **ToSaveLists.** The lists of entities to insert and to update.
- **Repositories.** The repositories write an entry with its tags, its links
  and the tag join rows.
- **Commands.** The command-line steps that shape the input before anything
  is saved or queried:
  - tag splitting and the tags prompt's answer;
  - tag resolution against the saved tags;
  - the duplicate-of-today gate;
  - date defaulting and the range check of the list command.

The database is modelled as a journal: a `Database` holds the statements it
has accepted so far. A function `rejects` stands for every statement the
engine refuses, which in the source raises an exception. Running a plan of
statements writes the prefix before the first refused statement
(`Store.Run`). A transaction snapshots the journal, and a rollback restores
it. The SQL scripts are not part of this model, so no statement is given any
table semantics.

Several behaviours are outside the source or foreign to it. The model takes
them as parameters:

- the clock (`now`, `later`, `today`);
- `Guid.NewGuid`, modelled as the `EntityBase.Guids` object that issues fresh ids;
- `SlugHelper.GenerateSlug`;
- `DateTime.TryParse`;
- `ExistsToday`;
- the prompts' answers;
- the lists `SortLists` returns.

The source calls `SortLists` but defines it nowhere.

Three facts about the code shape the model:

- **The slug.** The slug is the first three '-' segments of
  `GenerateSlug` applied to the raw title (SlugifyTitle.cs:9-15,
  TaskEntry.cs:19). No date and no hash is involved, so the same title gives
  the same slug on every day.
- **Tags.** Tags are an ordered list. They are resolved one per input string,
  in order.
- **Tag strings.** The add command cleans each tag string as the code does
  (trim, then drop ',' '.' ';', then lower-case), not as a tag title is
  cleaned; the difference is the first finding below.

## Model

| member | source | states |
|---|---|---|
| EntityBase.Guids.NewGuid | src/DataAccess/TasksTracker.Sqlite/Repositories/Repository.cs:96 | a new id is never the empty id and was never issued before |
| TagModel.NewTag | src/DataAccess/TasksTracker.Contracts/Models/Tag.cs:9-28 | a new tag has the normalised title, is not the default tag, and has an empty join id and an empty id |
| TagModel.CleanTagTitleSpec | src/DataAccess/TasksTracker.Contracts/Models/Tag.cs:16-21 | the text that is title-cased has no upper-case letter, none of ',' '.' ';' '\|', and no surrounding whitespace |
| TagModel.TagTitleSpec | src/DataAccess/TasksTracker.Contracts/Models/Tag.cs:14-22 | a tag title is trimmed, title-cased (a letter at the start or after a non-word character is upper-case, a letter right after a letter is lower-case), free of ',' '.' ';' '\|', and equal to the cleaned input up to case |
| TagModel.TagTitleIgnoresCase | src/DataAccess/TasksTracker.Contracts/Models/Tag.cs:16 | inputs that differ only in letter case give the same title |
| TagModel.TagTitleIdempotent | src/DataAccess/TasksTracker.Contracts/Models/Tag.cs:14-22 | a tag built from another tag's title keeps that title |
| TagModel.CleanTagTitleIdempotent | src/DataAccess/TasksTracker.Contracts/Models/Tag.cs:16-21 | cleaning a cleaned title changes nothing |
| TagModel.TagTitleExample | src/DataAccess/TasksTracker.Contracts/Models/Tag.cs:16-21 | the characters are removed before the trim, so "work ," gives "Work" |
| LinkModel.TaskEntryLink.constructor | src/DataAccess/TasksTracker.Contracts/Models/TaskEntryLink.cs:5-6 | a new link has empty ids, an empty link text and unset dates |
| TaskEntryModel.TaskEntry.constructor | src/DataAccess/TasksTracker.Contracts/Models/TaskEntry.cs:23-28 | a new entry has an empty slug, empty notes, no tags, no links and status Created |
| TaskEntryModel.TaskEntry.SetTitle | src/DataAccess/TasksTracker.Contracts/Models/TaskEntry.cs:12-21 | assigning a title stores the normalised title and the slug of the raw, untrimmed value, and changes nothing else |
| TaskEntryModel.TaskTitleSpec | src/DataAccess/TasksTracker.Contracts/Models/TaskEntry.cs:18 | an entry title is trimmed, title-cased in the same sense, and equal up to case to the trimmed lower-cased input |
| TaskEntryModel.TaskTitleIgnoresCaseAndSpace | src/DataAccess/TasksTracker.Contracts/Models/TaskEntry.cs:18 | titles that differ only in case or surrounding whitespace normalise alike |
| TaskEntryModel.TaskTitleIdempotent | src/DataAccess/TasksTracker.Contracts/Models/TaskEntry.cs:18 | re-assigning the current title leaves the title unchanged |
| SlugifyTitle.TakeThreeSegmentsSpec | src/DataAccess/TasksTracker.Contracts/Extensions/SlugifyTitle.cs:12-15 | the cut slug is a prefix of the generated slug with at most two '-', and it is either the whole slug or stops just before a third '-' |
| SlugifyTitle.TakeThreeSegmentsLongest | src/DataAccess/TasksTracker.Contracts/Extensions/SlugifyTitle.cs:12-15 | no longer prefix has at most two '-' |
| SlugifyTitle.SlugifyIsLongestPrefix | src/DataAccess/TasksTracker.Contracts/Extensions/SlugifyTitle.cs:9-15 | Slugify gives the longest prefix of GenerateSlug(value) that holds at most two '-' |
| SlugifyTitle.SlugifyKeepsShortSlug | src/DataAccess/TasksTracker.Contracts/Extensions/SlugifyTitle.cs:12-15 | a generated slug with at most two '-' is returned unchanged |
| SlugifyTitle.TakeThreeSegmentsIdempotent | src/DataAccess/TasksTracker.Contracts/Extensions/SlugifyTitle.cs:12-15 | cutting a cut slug again changes nothing |
| SaveLists.ToSaveLists.constructor | src/DataAccess/TasksTracker.Sqlite/Dtos/ToSaveLists.cs:7-9 | the three lists start empty |
| SaveLists.ToSaveLists.Combine | src/DataAccess/TasksTracker.Sqlite/Dtos/ToSaveLists.cs:11-15 | Combined becomes the old Combined followed by ToInsert and ToUpdate; ToInsert and ToUpdate are unchanged |
| SaveLists.CombinedAfter | src/DataAccess/TasksTracker.Sqlite/Dtos/ToSaveLists.cs:13-14 | Combine grows Combined by exactly the two lists' lengths and keeps the old Combined as a prefix |
| SaveLists.CombinedAfterSpec | src/DataAccess/TasksTracker.Sqlite/Dtos/ToSaveLists.cs:13-14 | after the old Combined come the ToInsert items, then the ToUpdate items, in order, and nothing else |
| SaveLists.CombineTwice | src/DataAccess/TasksTracker.Sqlite/Dtos/ToSaveLists.cs:11-15 | Combine is not idempotent: a second call appends both lists again |
| Store.Run | src/DataAccess/TasksTracker.Sqlite/Repositories/TaskEntryRepository.cs:105-111 | statements run in order until one throws: the written part is the prefix before the first refused statement, and the run is Done exactly when everything was written |
| Store.RunAppend | src/DataAccess/TasksTracker.Sqlite/Repositories/TaskEntryRepository.cs:107-109 | running two plans one after the other is running their concatenation; a failure in the first skips the second |
| Store.Database.Execute | src/DataAccess/TasksTracker.Sqlite/Repositories/TagRepository.cs:51 | one statement is appended to the journal unless the engine refuses it |
| Store.Database.BeginTransaction | src/DataAccess/TasksTracker.Sqlite/Repositories/TaskEntryRepository.cs:103 | the journal is snapshotted |
| Store.Database.Commit | src/DataAccess/TasksTracker.Sqlite/Repositories/TaskEntryRepository.cs:110 | the writes are kept and the transaction closed |
| Store.Database.Rollback | src/DataAccess/TasksTracker.Sqlite/Repositories/TaskEntryRepository.cs:115 | the journal is restored to the snapshot |
| Pagination.Wrap32 | src/DataAccess/TasksTracker.Sqlite/Repositories/Repository.cs:53 | the result is the C# int value congruent to the exact result modulo 2^32, and is that exact result when it fits |
| Pagination.PageWindow | src/DataAccess/TasksTracker.Sqlite/Repositories/Repository.cs:50-54 | the row count is the page size, and the offset is pageSize * (pageNumber - 1) reduced modulo 2^32 into the int range |
| Pagination.DefaultPageWindow | src/DataAccess/TasksTracker.Sqlite/Repositories/Repository.cs:46-54 | the default arguments (1, 10) give row count 10 and offset 0 |
| Pagination.PageOffsetExact | src/DataAccess/TasksTracker.Sqlite/Repositories/Repository.cs:52-53 | without overflow, RowCount is pageSize and Offset is pageSize*(pageNumber-1), which is not negative |
| Pagination.ConsecutivePages | src/DataAccess/TasksTracker.Sqlite/Repositories/Repository.cs:53 | without overflow, consecutive pages' offsets differ by exactly pageSize |
| Pagination.PageOffsetWraps | src/DataAccess/TasksTracker.Sqlite/Repositories/Repository.cs:53 | page 214748366 of size 10 gets a negative offset |
| Pagination.PageWindowWideSpec | src/DataAccess/TasksTracker.Sqlite/Repositories/Repository.cs:53 | an offset computed in 64 bits is never negative, grows by pageSize per page, and agrees with the source wherever the source does not overflow |
| TagRepository.Glued | src/DataAccess/TasksTracker.Sqlite/Repositories/TagRepository.cs:86 | exactly the tags with a non-empty join id |
| TagRepository.GluedAppend | src/DataAccess/TasksTracker.Sqlite/Repositories/TagRepository.cs:86 | the filter distributes over concatenation, so the glued tags keep their list order |
| TagRepository.GluedLength | src/DataAccess/TasksTracker.Sqlite/Repositories/TagRepository.cs:86-94 | as many join rows as tags with a non-empty join id |
| TagRepository.UpdateTagStatements | src/DataAccess/TasksTracker.Sqlite/Repositories/TagRepository.cs:61-69 | one update per tag, in list order |
| TagRepository.JoinStatements | src/DataAccess/TasksTracker.Sqlite/Repositories/TagRepository.cs:86-94 | each join row carries its own new id, the parent id and the tag's id |
| TagRepository.TagsPlan | src/DataAccess/TasksTracker.Sqlite/Repositories/TagRepository.cs:16-29 | one bulk insert of the new tags first, then one update per tag to update in order, then one join row per drawn id, linking the parent entry to the glued tag at the same position |
| TagRepository.TagsPlanJoinRows | src/DataAccess/TasksTracker.Sqlite/Repositories/TagRepository.cs:81-95 | the join rows a tag save writes are one per glued Combined tag, in Combined order, with the parent id and the tag id |
| TagRepository.TagsPlanWritesTags | src/DataAccess/TasksTracker.Sqlite/Repositories/TagRepository.cs:16-29 | a tag save writes tag and join rows only |
| TagRepository.InsertTagList | src/DataAccess/TasksTracker.Sqlite/Repositories/TagRepository.cs:47-52 | the new tags go in one bulk statement |
| TagRepository.UpdateTagList | src/DataAccess/TasksTracker.Sqlite/Repositories/TagRepository.cs:61-69 | the updates run one per tag in order, stopping at the first refused |
| TagRepository.SaveTagsEntries | src/DataAccess/TasksTracker.Sqlite/Repositories/TagRepository.cs:81-95 | one join row per glued tag with a fresh id; as many rows as glued tags when nothing is refused |
| TagRepository.SaveTagsList | src/DataAccess/TasksTracker.Sqlite/Repositories/TagRepository.cs:16-29 | an empty list writes nothing; otherwise the bulk insert, then the updates, then the join rows, all on the caller's connection and with no transaction of its own |
| LinkRepository.UpdateLinkStatements | src/DataAccess/TasksTracker.Sqlite/Repositories/TaskEntryLinkRepository.cs:67-75 | one update per link, in list order |
| LinkRepository.LinksPlan | src/DataAccess/TasksTracker.Sqlite/Repositories/TaskEntryLinkRepository.cs:14-26 | one bulk insert of the new links' rows first, then one update statement per link to update, in list order |
| LinkRepository.LinksPlanWritesLinks | src/DataAccess/TasksTracker.Sqlite/Repositories/TaskEntryLinkRepository.cs:14-26 | a link save writes link rows only, never tag or join rows |
| LinkRepository.InsertLinkList | src/DataAccess/TasksTracker.Sqlite/Repositories/TaskEntryLinkRepository.cs:43-53 | every new link is stamped with the parent id, and nothing else in it changes, before the one bulk insert |
| LinkRepository.UpdateLinkList | src/DataAccess/TasksTracker.Sqlite/Repositories/TaskEntryLinkRepository.cs:67-75 | the links are updated as they are, one per link in order, stopping at the first refused |
| LinkRepository.SaveLinksList | src/DataAccess/TasksTracker.Sqlite/Repositories/TaskEntryLinkRepository.cs:14-26 | an empty list writes nothing; otherwise the inserts are stamped and go before the updates; links that are only updated keep their parent id |
| TaskEntryRepository.InsertPlan | src/DataAccess/TasksTracker.Sqlite/Repositories/TaskEntryRepository.cs:107-109 | the entry row comes first, then the tag writes, then the link writes |
| TaskEntryRepository.WriteEntry | src/DataAccess/TasksTracker.Sqlite/Repositories/TaskEntryRepository.cs:107-109 | the entry row, the tags and the links are written in that order against the entry's own id, stopping at the first refused statement |
| TaskEntryRepository.Insert | src/DataAccess/TasksTracker.Sqlite/Repositories/TaskEntryRepository.cs:97-118 | all or nothing: when every statement is accepted the journal gains exactly the plan, otherwise it is as before; the failure that is re-thrown is the refused statement |
| TaskEntryRepository.Finish | src/DataAccess/TasksTracker.Sqlite/Repositories/TaskEntryRepository.cs:110-117 | Commit only after every step succeeded, Rollback to the snapshot otherwise |
| TaskEntryRepository.Save | src/DataAccess/TasksTracker.Sqlite/Repositories/Repository.cs:90-103 | UpdatedAt is always now; an empty id gets a fresh non-empty id and CreatedAt, then Insert runs and Update does not; a set id and CreatedAt are kept and exactly one update runs; the id is never empty afterwards |
| TaskEntryRepository.Get | src/DataAccess/TasksTracker.Sqlite/Repositories/TaskEntryRepository.cs:64-78 | no entry read gives null; otherwise the entry read, with its tags and links set from the second and third result sets in order |
| TaskEntryRepository.CategoryFromDateQuery | src/DataAccess/TasksTracker.Sqlite/Repositories/TaskEntryRepository.cs:46-53 | the query gets the category as given and, as its CreatedAt bound, the given date, or today when none is given |
| CommandBase.BlankTrim | src/Clients/TasksTracker.Cli/Commands/BaseCommand.cs:30 | a piece is dropped exactly when it is empty once trimmed |
| CommandBase.NonBlankMembers | src/Clients/TasksTracker.Cli/Commands/BaseCommand.cs:30 | the filter keeps exactly the pieces that are not blank |
| CommandBase.NonBlankAppend | src/Clients/TasksTracker.Cli/Commands/BaseCommand.cs:30 | the filter keeps the pieces' left-to-right order |
| CommandBase.PromptTagsIfMissing | src/Clients/TasksTracker.Cli/Commands/BaseCommand.cs:22-71 | one argument is split; zero or several given arguments are returned as they are; the shared empty array without prompting gives no tags; with prompting, the answer's tags |
| CommandBase.SplitTagsArgumentSpec | src/Clients/TasksTracker.Cli/Commands/BaseCommand.cs:26-31 | every piece of a single argument is non-blank and holds neither ',' nor ' ', and no non-blank piece is lost |
| CommandBase.SplitTagsArgumentWords | src/Clients/TasksTracker.Cli/Commands/BaseCommand.cs:26-31 | words separated by single spaces come back word for word and in order |
| CommandBase.SplitTagsArgumentExample | src/Clients/TasksTracker.Cli/Commands/BaseCommand.cs:26-31 | "database server migrate" gives [database, server, migrate] |
| CommandBase.AnswerTagsShowList | src/Clients/TasksTracker.Cli/Commands/BaseCommand.cs:47-70 | "show list" in any case and with surrounding whitespace, with saved tags, gives the tags picked from the list |
| CommandBase.SplitTagsArgument | src/Clients/TasksTracker.Cli/Commands/BaseCommand.cs:26-31 | a blank single argument gives no tags; the pieces' properties are in SplitTagsArgumentSpec |
| CommandBase.AnswerTags | src/Clients/TasksTracker.Cli/Commands/BaseCommand.cs:44-84 | an empty answer gives no tags; "show list" with saved tags gives the tags picked; "show list" without saved tags and an empty second answer gives none |
| CommandBase.AnswerTagsSplitsOnSpaces | src/Clients/TasksTracker.Cli/Commands/BaseCommand.cs:44-48 | any other non-empty answer is split on every single space: the pieces join back to the answer, there is one more piece than spaces, and no piece holds a space |
| CommandBase.AnswerTagsKeepsEmptyPieces | src/Clients/TasksTracker.Cli/Commands/BaseCommand.cs:47-48 | a double space between two words leaves an empty tag string between them |
| AddCommand.FindSaved | src/Clients/TasksTracker.Cli/Commands/AddTaskEntryCommand.cs:129 | the first saved tag whose lower-cased title equals the cleaned string, and none exactly when no saved tag matches |
| AddCommand.FirstDefault | src/Clients/TasksTracker.Cli/Commands/AddTaskEntryCommand.cs:116 | the first default tag, and none exactly when there is no default tag |
| AddCommand.CleanTagAsWritten | src/Clients/TasksTracker.Cli/Commands/AddTaskEntryCommand.cs:123-127 | the cleaning as the code writes it (trim, drop ',' '.' ';', lower-case) leaves no upper-case letter and is no longer than the trimmed string |
| AddCommand.CleanTagAsWrittenSpec | src/Clients/TasksTracker.Cli/Commands/AddTaskEntryCommand.cs:123-127 | the cleaned string has no upper-case letter and none of ',' '.' ';'; every other non-letter of the trimmed string, whitespace and '\|' included, is still in it; it is no longer than the trimmed string |
| AddCommand.ResolveTagAsWritten | src/Clients/TasksTracker.Cli/Commands/AddTaskEntryCommand.cs:123-136 | one tag string resolved as the code does it is a saved tag or a new tag built from the cleaned string, nothing else |
| AddCommand.ResolveTagAsWrittenSpec | src/Clients/TasksTracker.Cli/Commands/AddTaskEntryCommand.cs:129-136 | the first saved tag whose lower-cased title is the cleaned string; a new tag built from the cleaned string only when no saved tag has that lower-cased title |
| AddCommand.ResolveTag | src/Clients/TasksTracker.Cli/Commands/AddTaskEntryCommand.cs:123-132 | the corrected resolution, the string cleaned as a tag title is (Tag.cs:16-21), gives a saved tag or a new tag built from that cleaned string |
| AddCommand.ResolveTagSpec | src/Clients/TasksTracker.Cli/Commands/AddTaskEntryCommand.cs:129-136 | with the corrected cleaning, the resolved tag's title matches the cleaned string up to case; it is the saved tag when one matches, and a new tag only when no saved tag has that title in any case |
| AddCommand.CleanTagsAgree | src/Clients/TasksTracker.Cli/Commands/AddTaskEntryCommand.cs:123-127 | on a string without ',' '.' ';' '\|' the cleaning as written and the corrected one give the same string |
| AddCommand.ResolveTagsAgree | src/Clients/TasksTracker.Cli/Commands/AddTaskEntryCommand.cs:123-136 | on such a string both resolutions give the same tag |
| AddCommand.ResolveTagAsWrittenDuplicates | src/Clients/TasksTracker.Cli/Commands/AddTaskEntryCommand.cs:123-132 | as written, "work ," cleans to "work ", misses the saved "Work" and yields a second tag titled "Work" |
| AddCommand.ResolveTagFindsWork | src/Clients/TasksTracker.Cli/Commands/AddTaskEntryCommand.cs:123-136 | with the corrected cleaning, "work ," finds the saved "Work" |
| AddCommand.GeneratedTags | src/Clients/TasksTracker.Cli/Commands/AddTaskEntryCommand.cs:109-140 | no strings give exactly the first default tag, and fail when there is none; otherwise one tag per string, in order, each resolved as the code writes it |
| AddCommand.AddTaskEntryCommand.GenTags | src/Clients/TasksTracker.Cli/Commands/AddTaskEntryCommand.cs:109-140 | the method returns GeneratedTags: for no strings, the default tag that comes first in the saved list, and a failure when there is none; otherwise each string resolved as the code writes it, through the loop in ResolveEach |
| AddCommand.ResolveAll | src/Clients/TasksTracker.Cli/Commands/AddTaskEntryCommand.cs:121-137 | one tag per input string, the i-th tag being the i-th string resolved as written against the saved list |
| AddCommand.ResolveAllAgrees | src/Clients/TasksTracker.Cli/Commands/AddTaskEntryCommand.cs:121-137 | when no tag string holds ',' '.' ';' '\|', the loop's tags are those the corrected cleaning gives |
| AddCommand.AddTaskEntryCommand.ResolveEach | src/Clients/TasksTracker.Cli/Commands/AddTaskEntryCommand.cs:121-137 | the loop over the tag strings computes ResolveAll: one tag per input string, in input order |
| AddCommand.PromptTitleIfMissing | src/Clients/TasksTracker.Cli/Commands/AddTaskEntryCommand.cs:72-95 | a given title is kept; otherwise the prompt's answer |
| AddCommand.PromptNotesIfMissing | src/Clients/TasksTracker.Cli/Commands/AddTaskEntryCommand.cs:97-107 | given notes are kept; without prompting, empty notes stay empty |
| AddCommand.NewEntry | src/Clients/TasksTracker.Cli/Commands/AddTaskEntryCommand.cs:40-44 | the new entry has status Created, the normalised title and the slug of the trimmed title |
| AddCommand.AddTaskEntryCommand.Prepare | src/Clients/TasksTracker.Cli/Commands/AddTaskEntryCommand.cs:35-60 | prompting is on exactly when no title was given; the run stops exactly when ExistsToday knows the slug; otherwise the notes are trimmed and the tags generated, and the run stops for want of a default tag exactly when GeneratedTags has none |
| AddCommand.SaveUnlessStopped | src/Clients/TasksTracker.Cli/Commands/AddTaskEntryCommand.cs:46-68 | when Prepare stopped, its result and nothing written, 0 only for an entry that already exists; otherwise the entry gets a fresh id and is inserted all or nothing, and 0 is returned unless the insert was refused |
| AddCommand.AddTaskEntryCommand.Execute | src/Clients/TasksTracker.Cli/Commands/AddTaskEntryCommand.cs:35-69 | 0 is returned exactly when the entry already exists today or is saved; with no default tag to fall back on, or a refused insert, an exception leaves the command instead; Save is called only when ExistsToday gives the empty id, and nothing is written otherwise; the saved entry has status Created, the normalised title, the slug of the trimmed title, the trimmed notes and the generated tags, and is inserted all or nothing |
| ListCommand.PromptToDate | src/Clients/TasksTracker.Cli/Commands/ListTaskEntriesCommand.cs:158-174 | a blank or unparseable answer gives no upper bound; otherwise the trimmed answer's date |
| ListCommand.PromptToDatePadded | src/Clients/TasksTracker.Cli/Commands/ListTaskEntriesCommand.cs:164-168 | whitespace around the To Date answer makes no difference |
| ListCommand.PromptToDateBlank | src/Clients/TasksTracker.Cli/Commands/ListTaskEntriesCommand.cs:164-165 | a blank answer gives no upper bound |
| ListCommand.ListFilter | src/Clients/TasksTracker.Cli/Commands/ListTaskEntriesCommand.cs:41-68 | with the prompt flag set, prompting stays on and the From bound is the From Date answer; the tags are asked for with the flag as it ends up; once prompting is on the upper bound comes from the To Date answer, and otherwise any upper bound is the parsed argument |
| ListCommand.QueryOf | src/Clients/TasksTracker.Cli/Commands/ListTaskEntriesCommand.cs:62-70 | the query is skipped exactly when there is an upper bound and From is after it |
| ListCommand.DefaultRange | src/Clients/TasksTracker.Cli/Commands/ListTaskEntriesCommand.cs:106-125 | without prompting, no From Date means today and no To Date means no upper bound |
| ListCommand.ParsedRange | src/Clients/TasksTracker.Cli/Commands/ListTaskEntriesCommand.cs:106-128 | dates that parse are used as parsed, and nothing is prompted |
| ListCommand.PromptedIff | src/Clients/TasksTracker.Cli/Commands/ListTaskEntriesCommand.cs:106-136 | prompting ends up on exactly when it was asked for or a date argument fails to parse |
| ListCommand.BadFromDateAsksForTheRest | src/Clients/TasksTracker.Cli/Commands/ListTaskEntriesCommand.cs:54-60 | a From Date that fails to parse makes the command prompt for the To Date, even when none was given, and for the tags when none were given |
| ListCommand.NoUpperBoundRuns | src/Clients/TasksTracker.Cli/Commands/ListTaskEntriesCommand.cs:62-70 | with no upper bound the comparison is false, so the query always runs |
| ListCommand.NoToDateRuns | src/Clients/TasksTracker.Cli/Commands/ListTaskEntriesCommand.cs:54-70 | with no To Date argument and no prompting, the query runs |
| ListCommand.ListTaskEntriesCommand.ParseFromDate | src/Clients/TasksTracker.Cli/Commands/ListTaskEntriesCommand.cs:106-120 | no argument gives today; a parseable one gives its date; a failure turns prompting on and takes the prompt's date |
| ListCommand.ListTaskEntriesCommand.ParseToDate | src/Clients/TasksTracker.Cli/Commands/ListTaskEntriesCommand.cs:122-136 | no argument gives no upper bound; a parseable one gives its date; a failure turns prompting on and takes the prompt's answer |
| ListCommand.ListTaskEntriesCommand.Execute | src/Clients/TasksTracker.Cli/Commands/ListTaskEntriesCommand.cs:39-104 | the bounds and tags are computed in the source's order, and the query is made unless the range is refused; 0 is returned on every path |

## Left out

- **SQL execution.** The scripts and Dapper are not part of this model. Each
  statement stands for one `cnn.Execute` call, and the model records which
  statements were accepted, not what they do to the tables.
  - A Dapper bulk `Execute` over a list is modelled as one statement. The
    per-element expansion is not modelled. So an empty ToInsert list still
    gives one `InsertTags([])` or `InsertLinks([])` statement, which a
    `rejects` that refuses it can fail, where Dapper would run nothing; a
    `rejects` that accepts empty bulk statements gives the source's
    behaviour.
  - Connection lifetime is not modelled.
- **Delete.** `Delete`/`DeleteAsync` run a script that is not part of this
  model.
- **Query results.** The contents of the `Get`/`GetList`/`GetPaginatedList`
  results are not modelled. Nor is the table name derived from `nameof(T)`.
- **Async twins.** They behave the same as the sync paths, so each operation
  is modelled once.
  - This covers `SaveAsync`, `InsertAsync`, `SaveTagsListAsync`,
    `SaveLinksListAsync` and `GetByCategoryFromDateListAsync`.
  - `TaskEntryRepository.Save` stands for `SaveAsync` too, and `Insert` for
    `InsertAsync`.
- **User interface.** The interface is left out. This covers the prompts,
  the rule and the markup lines, the multi-selection, the result table and
  `DisplayEntry`. The prompts' answers are parameters.
  - The From Date prompt's answer is a date, because its validators accept
    only parseable text (today by default).
- **Other files.** HashingString, GuidHandler, Category and
  CategoryRepository are not modelled. Nor are logging, dependency injection
  and program start-up.
- **Abstract operations.** `SortLists`, the abstract `Update`, `ExistsToday`
  and `GetDateRangeTagsList` are called but defined nowhere.
  - The lists `SortLists` returns are a parameter.
  - `Update` is one `UpdateEntry` statement.
  - `ExistsToday` is a function parameter.
  - The list query is the `RangeQuery` its call would receive.
- TaskEntryRepository.Get: models what Get does with the three result sets
  it is handed. It does not model reading those sets.
- **Culture-sensitive case mapping.** `ToLower` and `ToTitleCase` are
  modelled on ASCII letters only. The all-upper-case acronym rule of
  `ToTitleCase` is not modelled: both callers lower-case the text first.
- **Foreign functions.** `GenerateSlug` and `DateTime.TryParse` are
  uninterpreted parameters, and dates are plain integers.
- TaskEntryModel.TaskEntry: `slug` is a public mutable field, where the
  source has a private setter (TaskEntry.cs:23); that only `SetTitle` (and
  the repository's reads) change it is kept by the `modifies` clauses of the
  members, not by the field's visibility.
- TagModel.TagTitleSpec: `TitleCased` does not constrain a letter that
  follows a digit or an apostrophe inside a word ("a1b"); .NET lower-cases
  it. Both callers lower-case the text first, but the model does not carry
  that letter's case through the title-casing scan.
- TaskEntryModel.TaskTitleSpec: the same gap as TagTitleSpec's. A letter
  after a digit or an apostrophe inside a word of an entry title ("a1b") is
  left unconstrained, where .NET lower-cases it.
- **Null arguments.** A null date argument is treated as an empty one. The
  source tests both with `string.IsNullOrEmpty`.
- AddCommand.AddTaskEntryCommand.Execute: ends at the saved entry. It does
  not model the `Get` that displays the entry afterwards.

## Findings

| source | as written | input that shows it | evidently intended | confidence | as-written member | corrected member |
|---|---|---|---|---|---|---|
| src/Clients/TasksTracker.Cli/Commands/AddTaskEntryCommand.cs:123-132 | GenTags trims before it removes ',' '.' ';', so the cleaned string keeps whitespace that stood before the punctuation, and no saved title (always trimmed) can match it | the tag string "work ," with a saved tag "Work": the cleaned string is "work ", the lookup misses, and a second tag titled "Work" is created | clean the string as a tag title is cleaned (remove the characters, then trim), so that "work ," finds the saved "Work" | high; not executed | AddCommand.ResolveTagAsWrittenDuplicates | AddCommand.ResolveTagFindsWork |
| src/DataAccess/TasksTracker.Sqlite/Repositories/Repository.cs:53 | the offset `pageSize * (pageNumber - 1)` is computed in 32-bit int and wraps | pageNumber 214748366, pageSize 10: the offset is -2147483646 | a non-negative offset that grows by pageSize per page | medium; not executed | Pagination.PageOffsetWraps | Pagination.PageWindowWideSpec |

`GenTags`, `Prepare` and `Execute` resolve tags as the code is written
(`AddCommand.ResolveTagAsWritten`). The corrected resolution
(`AddCommand.ResolveTag`) has its general property proved in
`AddCommand.ResolveTagSpec`, and `AddCommand.ResolveAllAgrees` shows the two
give the same tags whenever no tag string holds ',' '.' ';' '|'.
