/**
 * TaskEntryLinkRepository (src/DataAccess/TasksTracker.Sqlite/Repositories/TaskEntryLinkRepository.cs):
 * the link writes of an entry insert, issued on the caller's connection. The
 * new links are stamped with the parent entry's id in place and go in one
 * bulk insert; the changed links are updated one by one, as they are.
 */
module LinkRepository {
  import opened EntityBase
  import opened LinkModel
  import opened SaveLists
  import opened Store

  /** UpdateLinks: one update statement per link row, in list order. */
  function UpdateLinkStatements(rows: seq<LinkRow>): (r: seq<Statement>)
    ensures |r| == |rows|
    ensures forall i :: 0 <= i < |rows| ==> r[i] == UpdateLink(rows[i])
  {
    seq(|rows|, i requires 0 <= i < |rows| => UpdateLink(rows[i]))
  }

  /** SaveLinksList on a non-empty list: the bulk insert of the new links' rows, then the updates. */
  function LinksPlan(insertRows: seq<LinkRow>, updateRows: seq<LinkRow>): (r: seq<Statement>)
    ensures |r| == 1 + |updateRows| && r[0] == InsertLinks(insertRows)
    ensures r[1..] == UpdateLinkStatements(updateRows)
  {
    [InsertLinks(insertRows)] + UpdateLinkStatements(updateRows)
  }

  /** A link plan writes link rows only: no entry, tag or join row. */
  lemma LinksPlanWritesLinks(insertRows: seq<LinkRow>, updateRows: seq<LinkRow>)
    ensures forall s :: s in LinksPlan(insertRows, updateRows) ==> s.IsLinkWrite()
  {
  }

  /**
   * InsertLinks: every link is stamped with the parent id (nothing else in
   * it changes), then the whole list goes in one statement.
   */
  method InsertLinkList(db: Database, links: seq<TaskEntryLink>, parentId: Guid) returns (outcome: Outcome)
    modifies db`journal, links`taskEntryId
    ensures forall i :: 0 <= i < |links| ==> links[i].Row() == old(links[i].Row()).(taskEntryId := parentId)
    ensures db.journal == old(db.journal) + Run(db.rejects, [InsertLinks(Rows(links))]).accepted
    ensures outcome == Run(db.rejects, [InsertLinks(Rows(links))]).outcome
  {
    var i := 0;
    while i < |links|
      invariant 0 <= i <= |links|
      invariant forall j :: 0 <= j < i ==> links[j].taskEntryId == parentId
      invariant db.journal == old(db.journal)
      modifies links`taskEntryId
    {
      links[i].taskEntryId := parentId;
      i := i + 1;
    }
    outcome := db.Execute(InsertLinks(Rows(links)));
  }

  /** UpdateLinks: one statement per link in list order, stopping at the first refused. */
  method UpdateLinkList(db: Database, links: seq<TaskEntryLink>) returns (outcome: Outcome)
    modifies db`journal
    ensures db.journal == old(db.journal) + Run(db.rejects, UpdateLinkStatements(Rows(links))).accepted
    ensures outcome == Run(db.rejects, UpdateLinkStatements(Rows(links))).outcome
  {
    ghost var rows := Rows(links);
    forall j | 0 <= j < |links| ensures links[j].Row() == rows[j] {
      RowsAt(links, j);
    }
    outcome := UpdateEachLink(db, links, rows);
  }

  /** The loop of UpdateLinks, given the rows the links hold. */
  method UpdateEachLink(db: Database, links: seq<TaskEntryLink>, ghost rows: seq<LinkRow>) returns (outcome: Outcome)
    requires |rows| == |links| && forall j :: 0 <= j < |links| ==> links[j].Row() == rows[j]
    modifies db`journal
    ensures db.journal == old(db.journal) + Run(db.rejects, UpdateLinkStatements(rows)).accepted
    ensures outcome == Run(db.rejects, UpdateLinkStatements(rows)).outcome
  {
    ghost var plan := UpdateLinkStatements(rows);
    ghost var rejects := db.rejects;
    ghost var j0 := db.journal;
    var i := 0;
    while i < |links|
      invariant 0 <= i <= |links|
      invariant db.journal == j0 + plan[..i]
      invariant forall j :: 0 <= j < i ==> !rejects(plan[j])
    {
      var o := db.Execute(UpdateLink(links[i].Row()));
      if o.Failed? {
        RunRejectedAt(rejects, plan, i);
        return o;
      }
      assert plan[..i + 1] == plan[..i] + [plan[i]];
      i := i + 1;
    }
    assert plan[..i] == plan;
    RunAccepted(rejects, plan);
    outcome := Done;
  }

  /**
   * SaveLinksList: nothing at all for an empty list; otherwise, with
   * `sorted` standing for what SortLists returned, the new links are
   * stamped with the parent id and inserted, then the others updated,
   * stopping at the first statement refused. Only link rows are written and
   * the caller's transaction is left alone.
   */
  method SaveLinksList(db: Database, links: seq<TaskEntryLink>, sorted: ToSaveLists<TaskEntryLink>, parentId: Guid)
    returns (outcome: Outcome)
    modifies db`journal, sorted.toInsert`taskEntryId
    ensures links == [] ==> db.journal == old(db.journal) && outcome == Done
    ensures links == [] ==> forall l :: l in sorted.toInsert ==> l.taskEntryId == old(l.taskEntryId)
    ensures links != [] ==> forall l :: l in sorted.toInsert ==> l.taskEntryId == parentId
    ensures links != [] ==>
      && db.journal == old(db.journal) + Run(db.rejects, LinksPlan(Rows(sorted.toInsert), Rows(sorted.toUpdate))).accepted
      && outcome == Run(db.rejects, LinksPlan(Rows(sorted.toInsert), Rows(sorted.toUpdate))).outcome
    ensures forall l :: l in sorted.toUpdate && l !in sorted.toInsert ==> l.taskEntryId == old(l.taskEntryId)
  {
    if links == [] {
      return Done;
    }
    ghost var rejects := db.rejects;
    ghost var j0 := db.journal;
    outcome := InsertLinkList(db, sorted.toInsert, parentId);
    ghost var first := [InsertLinks(Rows(sorted.toInsert))];
    ghost var updates := UpdateLinkStatements(Rows(sorted.toUpdate));
    if outcome.Failed? {
      StopsBefore(rejects, first, updates);
      return;
    }
    ghost var j1 := db.journal;
    outcome := UpdateLinkList(db, sorted.toUpdate);
    Extend(rejects, j0, j1, db.journal, first, updates);
  }
}
