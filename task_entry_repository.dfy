/**
 * TaskEntryRepository (src/DataAccess/TasksTracker.Sqlite/Repositories/TaskEntryRepository.cs)
 * and the Save dispatch it inherits from Repository.cs: a new entry is
 * inserted together with its tags and links in one transaction that either
 * commits everything or rolls everything back; a saved entry is updated.
 */
module TaskEntryRepository {
  import opened Wrappers
  import opened EntityBase
  import opened TagModel
  import opened LinkModel
  import opened TaskEntryModel
  import opened SaveLists
  import opened Store
  import TagRepository
  import LinkRepository

  /** SaveTagsList's writes: none for an empty list. */
  function TagWrites(tags: seq<Tag>, toInsert: seq<Tag>, toUpdate: seq<Tag>, combined: seq<Tag>,
                     parentId: Guid, rowIds: seq<Guid>): seq<Statement>
    requires |rowIds| <= |TagRepository.Glued(combined)|
  {
    if tags == [] then [] else TagRepository.TagsPlan(toInsert, toUpdate, combined, parentId, rowIds)
  }

  /** SaveLinksList's writes: none for an empty list. */
  function LinkWrites(links: seq<TaskEntryLink>, insertRows: seq<LinkRow>, updateRows: seq<LinkRow>): seq<Statement> {
    if links == [] then [] else LinkRepository.LinksPlan(insertRows, updateRows)
  }

  /** The statements of a full insert, in order: the entry row, the tag writes, the link writes. */
  function InsertPlan(entry: EntryRow, tagWrites: seq<Statement>, linkWrites: seq<Statement>): (plan: seq<Statement>)
    ensures |plan| == 1 + |tagWrites| + |linkWrites| && plan[0] == InsertEntry(entry)
    ensures plan[1 .. 1 + |tagWrites|] == tagWrites && plan[1 + |tagWrites| ..] == linkWrites
  {
    [InsertEntry(entry)] + tagWrites + linkWrites
  }

  /**
   * The store after a transaction over `plan`: the whole plan when every
   * statement was accepted, nothing when one was refused; the outcome is
   * the plan's.
   */
  ghost predicate AllOrNothing(rejects: Statement -> bool, before: seq<Statement>, after: seq<Statement>,
                               plan: seq<Statement>, outcome: Outcome) {
    && outcome == Run(rejects, plan).outcome
    && (outcome.Done? ==> after == before + plan)
    && (outcome.Failed? ==> after == before)
  }

  /**
   * The transaction body of Insert: the entry row, then SaveTagsList and
   * SaveLinksList against the entry's id, stopping at the first refusal.
   */
  method WriteEntry(db: Database, ids: Guids, entity: TaskEntry, tagsSorted: ToSaveLists<Tag>,
                    linksSorted: ToSaveLists<TaskEntryLink>)
    returns (outcome: Outcome, ghost rowIds: seq<Guid>, ghost plan: seq<Statement>)
    requires ids.Valid()
    modifies db`journal, ids, linksSorted.toInsert`taskEntryId
    ensures ids.Valid() && ids.issued == old(ids.issued) + rowIds
    ensures |rowIds| <= |TagRepository.Glued(tagsSorted.combined)|
    ensures plan == InsertPlan(entity.Row(),
      TagWrites(entity.tags, tagsSorted.toInsert, tagsSorted.toUpdate, tagsSorted.combined, entity.id, rowIds),
      LinkWrites(entity.links, Rows(linksSorted.toInsert), Rows(linksSorted.toUpdate)))
    ensures db.journal == old(db.journal) + Run(db.rejects, plan).accepted && outcome == Run(db.rejects, plan).outcome
    ensures outcome.Done? && entity.tags != [] ==> |rowIds| == |TagRepository.Glued(tagsSorted.combined)|
    ensures outcome.Done? && entity.links != [] ==>
      forall l :: l in linksSorted.toInsert ==> l.taskEntryId == entity.id
  {
    ghost var rejects := db.rejects;
    ghost var j0, issued := db.journal, ids.issued;
    ghost var first := [InsertEntry(entity.Row())];
    outcome := db.Execute(InsertEntry(entity.Row()));
    if outcome.Failed? {
      rowIds := [];
      ghost var rest := TagWrites(entity.tags, tagsSorted.toInsert, tagsSorted.toUpdate, tagsSorted.combined, entity.id, rowIds)
        + LinkWrites(entity.links, Rows(linksSorted.toInsert), Rows(linksSorted.toUpdate));
      StopsBefore(rejects, first, rest);
      plan := first + rest;
      AppendAssoc(first,
        TagWrites(entity.tags, tagsSorted.toInsert, tagsSorted.toUpdate, tagsSorted.combined, entity.id, rowIds),
        LinkWrites(entity.links, Rows(linksSorted.toInsert), Rows(linksSorted.toUpdate)));
      return;
    }
    ghost var j1 := db.journal;
    ghost var rest;
    ghost var row := entity.Row();
    outcome, rowIds, rest := WriteChildren(db, ids, entity, tagsSorted, linksSorted);
    assert entity.Row() == row;
    Extend(rejects, j0, j1, db.journal, first, rest);
    plan := first + rest;
    AppendAssoc(first,
      TagWrites(entity.tags, tagsSorted.toInsert, tagsSorted.toUpdate, tagsSorted.combined, entity.id, rowIds),
      LinkWrites(entity.links, Rows(linksSorted.toInsert), Rows(linksSorted.toUpdate)));
    assert j0 == old(db.journal) && issued == old(ids.issued);
  }

  /** SaveTagsList against the entry's id, its writes stated as TagWrites. */
  method WriteTagsOf(db: Database, ids: Guids, tags: seq<Tag>, sorted: ToSaveLists<Tag>, parentId: Guid)
    returns (outcome: Outcome, ghost rowIds: seq<Guid>)
    requires ids.Valid()
    modifies db`journal, ids
    ensures ids.Valid() && ids.issued == old(ids.issued) + rowIds
    ensures |rowIds| <= |TagRepository.Glued(sorted.combined)|
    ensures db.journal == old(db.journal)
      + Run(db.rejects, TagWrites(tags, sorted.toInsert, sorted.toUpdate, sorted.combined, parentId, rowIds)).accepted
    ensures outcome == Run(db.rejects, TagWrites(tags, sorted.toInsert, sorted.toUpdate, sorted.combined, parentId, rowIds)).outcome
    ensures outcome.Done? && tags != [] ==> |rowIds| == |TagRepository.Glued(sorted.combined)|
  {
    outcome, rowIds := TagRepository.SaveTagsList(db, ids, tags, sorted, parentId);
    if tags == [] {
      assert Run(db.rejects, []) == RunResult([], Done);
    }
  }

  /** SaveLinksList against the entry's id, its writes stated as LinkWrites. */
  method WriteLinksOf(db: Database, links: seq<TaskEntryLink>, sorted: ToSaveLists<TaskEntryLink>, parentId: Guid)
    returns (outcome: Outcome)
    modifies db`journal, sorted.toInsert`taskEntryId
    ensures db.journal == old(db.journal) + Run(db.rejects, LinkWrites(links, Rows(sorted.toInsert), Rows(sorted.toUpdate))).accepted
    ensures outcome == Run(db.rejects, LinkWrites(links, Rows(sorted.toInsert), Rows(sorted.toUpdate))).outcome
    ensures links != [] ==> forall l :: l in sorted.toInsert ==> l.taskEntryId == parentId
  {
    outcome := LinkRepository.SaveLinksList(db, links, sorted, parentId);
    if links == [] {
      assert Run(db.rejects, []) == RunResult([], Done);
    }
  }

  /** SaveTagsList then SaveLinksList against the entry's id, stopping at the first refusal. */
  method WriteChildren(db: Database, ids: Guids, entity: TaskEntry, tagsSorted: ToSaveLists<Tag>,
                       linksSorted: ToSaveLists<TaskEntryLink>)
    returns (outcome: Outcome, ghost rowIds: seq<Guid>, ghost rest: seq<Statement>)
    requires ids.Valid()
    modifies db`journal, ids, linksSorted.toInsert`taskEntryId
    ensures ids.Valid() && ids.issued == old(ids.issued) + rowIds
    ensures |rowIds| <= |TagRepository.Glued(tagsSorted.combined)|
    ensures rest ==
      TagWrites(entity.tags, tagsSorted.toInsert, tagsSorted.toUpdate, tagsSorted.combined, entity.id, rowIds)
      + LinkWrites(entity.links, Rows(linksSorted.toInsert), Rows(linksSorted.toUpdate))
    ensures db.journal == old(db.journal) + Run(db.rejects, rest).accepted && outcome == Run(db.rejects, rest).outcome
    ensures outcome.Done? && entity.tags != [] ==> |rowIds| == |TagRepository.Glued(tagsSorted.combined)|
    ensures outcome.Done? && entity.links != [] ==>
      forall l :: l in linksSorted.toInsert ==> l.taskEntryId == entity.id
  {
    ghost var rejects := db.rejects;
    ghost var j0 := db.journal;
    outcome, rowIds := WriteTagsOf(db, ids, entity.tags, tagsSorted, entity.id);
    ghost var tags := TagWrites(entity.tags, tagsSorted.toInsert, tagsSorted.toUpdate, tagsSorted.combined, entity.id, rowIds);
    if outcome.Failed? {
      ghost var links := LinkWrites(entity.links, Rows(linksSorted.toInsert), Rows(linksSorted.toUpdate));
      StopsBefore(rejects, tags, links);
      rest := tags + links;
      return;
    }
    ghost var j1 := db.journal;
    outcome := WriteLinksOf(db, entity.links, linksSorted, entity.id);
    // Rows reads the links' entry ids, which SaveLinksList has just stamped.
    ghost var links := LinkWrites(entity.links, Rows(linksSorted.toInsert), Rows(linksSorted.toUpdate));
    Extend(rejects, j0, j1, db.journal, tags, links);
    rest := tags + links;
  }

  /**
   * Insert: WriteEntry inside one transaction. If every statement is
   * accepted the transaction commits and the store holds the whole plan; at
   * the first refusal it rolls back, the store is as it was, and that
   * refusal is what the caller sees.
   */
  method Insert(db: Database, ids: Guids, entity: TaskEntry, tagsSorted: ToSaveLists<Tag>,
                linksSorted: ToSaveLists<TaskEntryLink>)
    returns (outcome: Outcome, ghost rowIds: seq<Guid>, ghost plan: seq<Statement>)
    requires ids.Valid() && db.snapshot == None
    modifies db`journal, db`snapshot, ids, linksSorted.toInsert`taskEntryId
    ensures ids.Valid() && ids.issued == old(ids.issued) + rowIds
    ensures db.snapshot == None
    ensures |rowIds| <= |TagRepository.Glued(tagsSorted.combined)|
    ensures plan == InsertPlan(entity.Row(),
      TagWrites(entity.tags, tagsSorted.toInsert, tagsSorted.toUpdate, tagsSorted.combined, entity.id, rowIds),
      LinkWrites(entity.links, Rows(linksSorted.toInsert), Rows(linksSorted.toUpdate)))
    ensures AllOrNothing(db.rejects, old(db.journal), db.journal, plan, outcome)
    ensures outcome.Done? && entity.tags != [] ==> |rowIds| == |TagRepository.Glued(tagsSorted.combined)|
    ensures outcome.Done? && entity.links != [] ==>
      forall l :: l in linksSorted.toInsert ==> l.taskEntryId == entity.id
  {
    db.BeginTransaction();
    outcome, rowIds, plan := WriteEntry(db, ids, entity, tagsSorted, linksSorted);
    Finish(db, outcome, plan, entity, linksSorted);
  }

  /** The end of Insert's transaction: commit after success, roll back after a refusal. */
  method Finish(db: Database, outcome: Outcome, ghost plan: seq<Statement>,
                ghost entity: TaskEntry, ghost linksSorted: ToSaveLists<TaskEntryLink>)
    requires db.snapshot.Some?
    requires outcome == Run(db.rejects, plan).outcome
    requires db.journal == db.snapshot.value + Run(db.rejects, plan).accepted
    modifies db`journal, db`snapshot
    ensures db.snapshot == None
    ensures outcome.Done? ==> db.journal == old(db.snapshot.value) + plan
    ensures outcome.Failed? ==> db.journal == old(db.snapshot.value)
    ensures entity.Row() == old(entity.Row())
    ensures Rows(linksSorted.toInsert) == old(Rows(linksSorted.toInsert))
    ensures Rows(linksSorted.toUpdate) == old(Rows(linksSorted.toUpdate))
  {
    if outcome.Failed? {
      db.Rollback();
    } else {
      db.Commit();
    }
  }

  /**
   * Save: UpdatedAt is stamped with the current time (`now`). An entry
   * never saved (empty id) gets a fresh id and CreatedAt (`later`, the
   * second reading of the clock) and is inserted; any other entry is
   * updated in one statement, its id and CreatedAt kept.
   */
  method Save(db: Database, ids: Guids, entity: TaskEntry, now: DateTime, later: DateTime,
              tagsSorted: ToSaveLists<Tag>, linksSorted: ToSaveLists<TaskEntryLink>)
    returns (outcome: Outcome, ghost rowIds: seq<Guid>, ghost plan: seq<Statement>)
    requires ids.Valid() && db.snapshot == None
    modifies entity`updatedAt, entity`id, entity`createdAt
    modifies db`journal, db`snapshot, ids, linksSorted.toInsert`taskEntryId
    ensures ids.Valid() && db.snapshot == None
    ensures entity.updatedAt == now
    ensures entity.id != EmptyId
    ensures old(entity.id) == EmptyId ==>
      && entity.id !in old(ids.issued)
      && ids.issued == old(ids.issued) + [entity.id] + rowIds
      && entity.createdAt == later
      && |rowIds| <= |TagRepository.Glued(tagsSorted.combined)|
      && plan == InsertPlan(entity.Row(),
           TagWrites(entity.tags, tagsSorted.toInsert, tagsSorted.toUpdate, tagsSorted.combined, entity.id, rowIds),
           LinkWrites(entity.links, Rows(linksSorted.toInsert), Rows(linksSorted.toUpdate)))
      && AllOrNothing(db.rejects, old(db.journal), db.journal, plan, outcome)
    ensures old(entity.id) != EmptyId ==>
      && entity.id == old(entity.id) && entity.createdAt == old(entity.createdAt)
      && ids.issued == old(ids.issued) && rowIds == []
      && plan == [UpdateEntry(entity.Row())]
      && db.journal == old(db.journal) + Run(db.rejects, plan).accepted
      && outcome == Run(db.rejects, plan).outcome
      && forall l :: l in linksSorted.toInsert ==> l.taskEntryId == old(l.taskEntryId)
  {
    entity.updatedAt := now;
    if entity.id == EmptyId {
      entity.id := ids.NewGuid();
      entity.createdAt := later;
      outcome, rowIds, plan := Insert(db, ids, entity, tagsSorted, linksSorted);
      return;
    }
    rowIds := [];
    plan := [UpdateEntry(entity.Row())];
    outcome := db.Execute(UpdateEntry(entity.Row()));
  }

  /**
   * Get: the entry the first result set holds, or null. A found entry gets
   * its Tags and Links from the second and third result sets, in order;
   * null is passed straight back.
   */
  method Get(entryRead: TaskEntry?, tagsRead: seq<Tag>, linksRead: seq<TaskEntryLink>) returns (r: TaskEntry?)
    modifies entryRead
    ensures r == entryRead
    ensures r != null ==> r.tags == tagsRead && r.links == linksRead
    ensures r != null ==> r.Row() == old(r.Row())
  {
    if entryRead == null {
      return null;
    }
    entryRead.tags := tagsRead;
    entryRead.links := linksRead;
    r := entryRead;
  }

  /** The parameters GetByCategoryFromDateList hands to its query. */
  datatype CategoryQuery = CategoryQuery(categoryId: Guid, createdAt: DateTime)

  /**
   * GetByCategoryFromDateList: the category as given, and as the CreatedAt
   * bound the given date, or today when none is given.
   */
  function CategoryFromDateQuery(categoryId: Guid, fromDate: Option<DateTime>, today: DateTime): (q: CategoryQuery)
    ensures q.categoryId == categoryId
    ensures fromDate.Some? ==> q.createdAt == fromDate.value
    ensures fromDate.None? ==> q.createdAt == today
  {
    CategoryQuery(categoryId, if fromDate.None? then today else fromDate.value)
  }
}
