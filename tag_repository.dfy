/**
 * TagRepository (src/DataAccess/TasksTracker.Sqlite/Repositories/TagRepository.cs):
 * the tag writes of an entry insert, issued on the caller's connection. The
 * new tags go in one bulk insert, the changed tags one update each, and a
 * join row is written for every tag that carries a GlueId.
 */
module TagRepository {
  import opened EntityBase
  import opened TagModel
  import opened SaveLists
  import opened Store

  predicate IsGlued(t: Tag) { t.glueId != EmptyId }

  /** tags.Where(tag => tag.GlueId != Guid.Empty), in list order. */
  function Glued(tags: seq<Tag>): (r: seq<Tag>)
    ensures |r| <= |tags|
    ensures forall t :: t in r <==> t in tags && IsGlued(t)
  {
    if tags == [] then []
    else (if IsGlued(tags[0]) then [tags[0]] else []) + Glued(tags[1..])
  }

  /** Filtering distributes over concatenation: the glued tags keep their relative order. */
  lemma {:induction false} GluedAppend(a: seq<Tag>, b: seq<Tag>)
    ensures Glued(a + b) == Glued(a) + Glued(b)
  {
    if a == [] {
      assert a + b == b;
    } else {
      assert (a + b)[0] == a[0];
      assert (a + b)[1..] == a[1..] + b;
      GluedAppend(a[1..], b);
    }
  }

  /** The number of tags with a GlueId. */
  function CountGlued(tags: seq<Tag>): nat {
    if tags == [] then 0 else (if IsGlued(tags[0]) then 1 else 0) + CountGlued(tags[1..])
  }

  lemma {:induction false} GluedLength(tags: seq<Tag>)
    ensures |Glued(tags)| == CountGlued(tags)
  {
    if tags != [] {
      GluedLength(tags[1..]);
    }
  }

  /** UpdateTags: one update statement per tag, in list order. */
  function UpdateTagStatements(tags: seq<Tag>): (r: seq<Statement>)
    ensures |r| == |tags|
    ensures forall i :: 0 <= i < |tags| ==> r[i] == UpdateTag(tags[i])
  {
    seq(|tags|, i requires 0 <= i < |tags| => UpdateTag(tags[i]))
  }

  /**
   * SaveTagsEntries: a join row per glued tag, each with its own fresh id,
   * the parent entry and the tag; rowIds are the ids drawn so far.
   */
  function JoinStatements(glued: seq<Tag>, parentId: Guid, rowIds: seq<Guid>): (r: seq<Statement>)
    requires |rowIds| <= |glued|
    ensures |r| == |rowIds|
    ensures forall i :: 0 <= i < |rowIds| ==>
      r[i] == InsertTaskTag(TaskTagRow(rowIds[i], parentId, glued[i].id))
  {
    seq(|rowIds|, i requires 0 <= i < |rowIds| => InsertTaskTag(TaskTagRow(rowIds[i], parentId, glued[i].id)))
  }

  /** SaveTagsList on a non-empty list: bulk insert, then the updates, then the join rows. */
  function TagsPlan(sortedInsert: seq<Tag>, sortedUpdate: seq<Tag>, combined: seq<Tag>,
                    parentId: Guid, rowIds: seq<Guid>): (r: seq<Statement>)
    requires |rowIds| <= |Glued(combined)|
    ensures |r| == 1 + |sortedUpdate| + |rowIds| && r[0] == InsertTags(sortedInsert)
    ensures forall i :: 0 <= i < |sortedUpdate| ==> r[1 + i] == UpdateTag(sortedUpdate[i])
    ensures forall i :: 0 <= i < |rowIds| ==>
      r[1 + |sortedUpdate| + i] == InsertTaskTag(TaskTagRow(rowIds[i], parentId, Glued(combined)[i].id))
  {
    [InsertTags(sortedInsert)] + UpdateTagStatements(sortedUpdate)
    + JoinStatements(Glued(combined), parentId, rowIds)
  }

  /** The join rows a statement sequence writes, in order. */
  function JoinRows(plan: seq<Statement>): (r: seq<TaskTagRow>)
    ensures |r| <= |plan|
  {
    if plan == [] then []
    else (if plan[0].InsertTaskTag? then [plan[0].join] else []) + JoinRows(plan[1..])
  }

  lemma {:induction false} JoinRowsAppend(a: seq<Statement>, b: seq<Statement>)
    ensures JoinRows(a + b) == JoinRows(a) + JoinRows(b)
  {
    if a == [] {
      assert a + b == b;
    } else {
      assert (a + b)[0] == a[0];
      assert (a + b)[1..] == a[1..] + b;
      JoinRowsAppend(a[1..], b);
    }
  }

  lemma {:induction false} JoinRowsOfUpdates(tags: seq<Tag>)
    ensures JoinRows(UpdateTagStatements(tags)) == []
  {
    if tags != [] {
      assert UpdateTagStatements(tags)[1..] == UpdateTagStatements(tags[1..]);
      JoinRowsOfUpdates(tags[1..]);
    }
  }

  lemma {:induction false} JoinRowsOfJoins(glued: seq<Tag>, parentId: Guid, rowIds: seq<Guid>)
    requires |rowIds| <= |glued|
    ensures JoinRows(JoinStatements(glued, parentId, rowIds))
      == seq(|rowIds|, i requires 0 <= i < |rowIds| => TaskTagRow(rowIds[i], parentId, glued[i].id))
  {
    if rowIds != [] {
      assert JoinStatements(glued, parentId, rowIds)[1..] == JoinStatements(glued[1..], parentId, rowIds[1..]);
      JoinRowsOfJoins(glued[1..], parentId, rowIds[1..]);
    }
  }

  /**
   * The join rows of a completed tag plan: exactly one per glued tag of
   * Combined, in Combined order, each naming the parent entry and that tag.
   */
  lemma TagsPlanJoinRows(sortedInsert: seq<Tag>, sortedUpdate: seq<Tag>, combined: seq<Tag>,
                         parentId: Guid, rowIds: seq<Guid>)
    requires |rowIds| == |Glued(combined)|
    ensures |rowIds| == CountGlued(combined)
    ensures |JoinRows(TagsPlan(sortedInsert, sortedUpdate, combined, parentId, rowIds))| == |rowIds|
    ensures forall i :: 0 <= i < |rowIds| ==>
      JoinRows(TagsPlan(sortedInsert, sortedUpdate, combined, parentId, rowIds))[i]
        == TaskTagRow(rowIds[i], parentId, Glued(combined)[i].id)
  {
    var u := UpdateTagStatements(sortedUpdate);
    var j := JoinStatements(Glued(combined), parentId, rowIds);
    JoinRowsAppend([InsertTags(sortedInsert)] + u, j);
    JoinRowsAppend([InsertTags(sortedInsert)], u);
    assert JoinRows([InsertTags(sortedInsert)]) == [] by {
      assert [InsertTags(sortedInsert)][1..] == [];
    }
    JoinRowsOfUpdates(sortedUpdate);
    JoinRowsOfJoins(Glued(combined), parentId, rowIds);
    GluedLength(combined);
  }

  /** A tag plan touches tags and join rows only: no entry and no link is written. */
  lemma TagsPlanWritesTags(sortedInsert: seq<Tag>, sortedUpdate: seq<Tag>, combined: seq<Tag>,
                           parentId: Guid, rowIds: seq<Guid>)
    requires |rowIds| <= |Glued(combined)|
    ensures forall s :: s in TagsPlan(sortedInsert, sortedUpdate, combined, parentId, rowIds) ==> s.IsTagWrite()
  {
  }

  /** InsertTags: one bulk statement for the whole list. */
  method InsertTagList(db: Database, tags: seq<Tag>) returns (outcome: Outcome)
    modifies db`journal
    ensures db.journal == old(db.journal) + Run(db.rejects, [InsertTags(tags)]).accepted
    ensures outcome == Run(db.rejects, [InsertTags(tags)]).outcome
  {
    outcome := db.Execute(InsertTags(tags));
  }

  /** UpdateTags: one statement per tag in list order, stopping at the first refused. */
  method UpdateTagList(db: Database, tags: seq<Tag>) returns (outcome: Outcome)
    modifies db`journal
    ensures db.journal == old(db.journal) + Run(db.rejects, UpdateTagStatements(tags)).accepted
    ensures outcome == Run(db.rejects, UpdateTagStatements(tags)).outcome
  {
    ghost var plan := UpdateTagStatements(tags);
    var i := 0;
    while i < |tags|
      invariant 0 <= i <= |tags|
      invariant db.journal == old(db.journal) + plan[..i]
      invariant forall j :: 0 <= j < i ==> !db.rejects(plan[j])
    {
      var o := db.Execute(UpdateTag(tags[i]));
      if o.Failed? {
        RunRejectedAt(db.rejects, plan, i);
        return o;
      }
      assert plan[..i + 1] == plan[..i] + [plan[i]];
      i := i + 1;
    }
    assert plan[..i] == plan;
    RunAccepted(db.rejects, plan);
    outcome := Done;
  }

  /**
   * SaveTagsEntries: for each glued tag in order, a fresh id is drawn and
   * its join row written, stopping at the first refused.
   */
  method SaveTagsEntries(db: Database, ids: Guids, tags: seq<Tag>, parentId: Guid)
    returns (outcome: Outcome, ghost rowIds: seq<Guid>)
    requires ids.Valid()
    modifies db`journal, ids
    ensures ids.Valid() && ids.issued == old(ids.issued) + rowIds
    ensures |rowIds| <= |Glued(tags)|
    ensures db.journal == old(db.journal) + Run(db.rejects, JoinStatements(Glued(tags), parentId, rowIds)).accepted
    ensures outcome == Run(db.rejects, JoinStatements(Glued(tags), parentId, rowIds)).outcome
    ensures outcome.Done? ==> |rowIds| == |Glued(tags)|
  {
    var glued := Glued(tags);
    rowIds := [];
    var i := 0;
    while i < |glued|
      invariant 0 <= i <= |glued| && |rowIds| == i
      invariant ids.Valid() && ids.issued == old(ids.issued) + rowIds
      invariant db.journal == old(db.journal) + JoinStatements(glued, parentId, rowIds)
      invariant forall j :: 0 <= j < i ==> !db.rejects(JoinStatements(glued, parentId, rowIds)[j])
    {
      ghost var before := JoinStatements(glued, parentId, rowIds);
      var id := ids.NewGuid();
      var s := InsertTaskTag(TaskTagRow(id, parentId, glued[i].id));
      rowIds := rowIds + [id];
      ghost var plan := JoinStatements(glued, parentId, rowIds);
      assert plan == before + [s];
      var o := db.Execute(s);
      if o.Failed? {
        RunRejectedAt(db.rejects, plan, i);
        assert plan[..i] == before;
        return o, rowIds;
      }
      i := i + 1;
    }
    RunAccepted(db.rejects, JoinStatements(glued, parentId, rowIds));
    outcome := Done;
  }

  /**
   * SaveTagsList: nothing at all for an empty list; otherwise, with `sorted`
   * standing for what SortLists returned, the bulk insert, the updates and
   * the join rows, in that order, stopping at the first statement refused.
   * The caller's transaction is left alone.
   */
  method SaveTagsList(db: Database, ids: Guids, tags: seq<Tag>, sorted: ToSaveLists<Tag>, parentId: Guid)
    returns (outcome: Outcome, ghost rowIds: seq<Guid>)
    requires ids.Valid()
    modifies db`journal, ids
    ensures ids.Valid() && ids.issued == old(ids.issued) + rowIds
    ensures tags == [] ==> db.journal == old(db.journal) && outcome == Done && rowIds == []
    ensures tags != [] ==>
      && |rowIds| <= |Glued(sorted.combined)|
      && db.journal == old(db.journal)
           + Run(db.rejects, TagsPlan(sorted.toInsert, sorted.toUpdate, sorted.combined, parentId, rowIds)).accepted
      && outcome == Run(db.rejects, TagsPlan(sorted.toInsert, sorted.toUpdate, sorted.combined, parentId, rowIds)).outcome
      && (outcome.Done? ==> |rowIds| == |Glued(sorted.combined)|)
  {
    if tags == [] {
      return Done, [];
    }
    outcome, rowIds := WriteTags(db, ids, sorted.toInsert, sorted.toUpdate, sorted.combined, parentId);
  }

  /** The body of SaveTagsList past its early return, on the lists SortLists produced. */
  method WriteTags(db: Database, ids: Guids, toInsert: seq<Tag>, toUpdate: seq<Tag>, combined: seq<Tag>,
                   parentId: Guid)
    returns (outcome: Outcome, ghost rowIds: seq<Guid>)
    requires ids.Valid()
    modifies db`journal, ids
    ensures ids.Valid() && ids.issued == old(ids.issued) + rowIds
    ensures |rowIds| <= |Glued(combined)|
    ensures db.journal == old(db.journal) + Run(db.rejects, TagsPlan(toInsert, toUpdate, combined, parentId, rowIds)).accepted
    ensures outcome == Run(db.rejects, TagsPlan(toInsert, toUpdate, combined, parentId, rowIds)).outcome
    ensures outcome.Done? ==> |rowIds| == |Glued(combined)|
  {
    ghost var rejects := db.rejects;
    ghost var first := [InsertTags(toInsert)];
    ghost var updates := UpdateTagStatements(toUpdate);
    ghost var j0 := db.journal;
    rowIds := [];
    outcome := InsertTagList(db, toInsert);
    if outcome.Failed? {
      StopsBefore(rejects, first, updates);
      StopsBeforeJoins(rejects, first + updates, Glued(combined), parentId, rowIds);
      return;
    }
    ghost var j1 := db.journal;
    outcome := UpdateTagList(db, toUpdate);
    Extend(rejects, j0, j1, db.journal, first, updates);
    if outcome.Failed? {
      StopsBeforeJoins(rejects, first + updates, Glued(combined), parentId, rowIds);
      return;
    }
    ghost var j2 := db.journal;
    outcome, rowIds := SaveTagsEntries(db, ids, combined, parentId);
    Extend(rejects, j0, j2, db.journal, first + updates, JoinStatements(Glued(combined), parentId, rowIds));
  }

  lemma StopsBeforeJoins(rejects: Statement -> bool, before: seq<Statement>, glued: seq<Tag>,
                         parentId: Guid, rowIds: seq<Guid>)
    requires |rowIds| <= |glued|
    requires Run(rejects, before).outcome.Failed?
    ensures Run(rejects, before + JoinStatements(glued, parentId, rowIds)) == Run(rejects, before)
  {
    StopsBefore(rejects, before, JoinStatements(glued, parentId, rowIds));
  }
}
