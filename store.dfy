/**
 * The SQLite store behind the repositories, kept abstract: the SQL scripts
 * are not part of this model, so the store records the statements it
 * accepted, in order, and a statement the engine refuses raises an error
 * and writes nothing. A transaction snapshots the record and a rollback
 * restores it.
 */
module Store {
  import opened Wrappers
  import opened EntityBase
  import opened TagModel
  import opened LinkModel
  import opened TaskEntryModel

  /** A TasksTags row: the join between a task entry and a tag. */
  datatype TaskTagRow = TaskTagRow(id: Guid, taskEntryId: Guid, tagId: Guid)

  /** One execution of a repository script. A bulk Execute over a list is one statement. */
  datatype Statement =
    | InsertEntry(entry: EntryRow)
    | UpdateEntry(entry: EntryRow)
    | InsertTags(tags: seq<Tag>)
    | UpdateTag(tag: Tag)
    | InsertTaskTag(join: TaskTagRow)
    | InsertLinks(links: seq<LinkRow>)
    | UpdateLink(link: LinkRow)
  {
    predicate IsLinkWrite() { InsertLinks? || UpdateLink? }
    predicate IsTagWrite() { InsertTags? || UpdateTag? || InsertTaskTag? }
  }

  /** How a sequence of statements ended: all accepted, or the first one refused (the exception raised). */
  datatype Outcome = Done | Failed(rejected: Statement)

  datatype RunResult = RunResult(accepted: seq<Statement>, outcome: Outcome)

  /**
   * Running statements one after another until one is refused: what is
   * written is the prefix before the refused statement.
   */
  function Run(rejects: Statement -> bool, plan: seq<Statement>): (r: RunResult)
    ensures r.accepted <= plan
    ensures forall i :: 0 <= i < |r.accepted| ==> !rejects(r.accepted[i])
    ensures r.outcome.Done? <==> r.accepted == plan
    ensures r.outcome.Failed? ==>
      |r.accepted| < |plan| && plan[|r.accepted|] == r.outcome.rejected && rejects(r.outcome.rejected)
  {
    if plan == [] then RunResult([], Done)
    else if rejects(plan[0]) then RunResult([], Failed(plan[0]))
    else
      var rest := Run(rejects, plan[1..]);
      assert plan == [plan[0]] + plan[1..];
      RunResult([plan[0]] + rest.accepted, rest.outcome)
  }

  /** Running two plans in turn, stopping at the first refusal, is running their concatenation. */
  lemma {:induction false} RunAppend(rejects: Statement -> bool, p: seq<Statement>, q: seq<Statement>)
    ensures Run(rejects, p + q) ==
      if Run(rejects, p).outcome.Done?
      then RunResult(p + Run(rejects, q).accepted, Run(rejects, q).outcome)
      else Run(rejects, p)
  {
    if p == [] {
      assert p + q == q;
    } else {
      assert (p + q)[0] == p[0];
      assert (p + q)[1..] == p[1..] + q;
      if !rejects(p[0]) {
        RunAppend(rejects, p[1..], q);
      }
    }
  }

  /** Running a plan whose statements are all accepted writes all of it. */
  lemma {:induction false} RunAccepted(rejects: Statement -> bool, plan: seq<Statement>)
    requires forall i :: 0 <= i < |plan| ==> !rejects(plan[i])
    ensures Run(rejects, plan) == RunResult(plan, Done)
  {
    if plan != [] {
      RunAccepted(rejects, plan[1..]);
    }
  }

  /** Running a plan whose statement k is the first refused writes the k before it and fails there. */
  lemma {:induction false} RunRejectedAt(rejects: Statement -> bool, plan: seq<Statement>, k: nat)
    requires k < |plan| && rejects(plan[k])
    requires forall i :: 0 <= i < k ==> !rejects(plan[i])
    ensures Run(rejects, plan) == RunResult(plan[..k], Failed(plan[k]))
  {
    if k > 0 {
      RunRejectedAt(rejects, plan[1..], k - 1);
      assert plan[..k] == [plan[0]] + plan[1..][..k - 1];
    }
  }

  /** A refusal in the first plan ends the run there. */
  lemma StopsBefore(rejects: Statement -> bool, p: seq<Statement>, q: seq<Statement>)
    requires Run(rejects, p).outcome.Failed?
    ensures Run(rejects, p + q) == Run(rejects, p)
  {
    RunAppend(rejects, p, q);
  }

  /** Writing what p accepts, all of p, then what q accepts, is writing what p + q accepts. */
  lemma Extend(rejects: Statement -> bool, j0: seq<Statement>, j1: seq<Statement>, j2: seq<Statement>,
               p: seq<Statement>, q: seq<Statement>)
    requires Run(rejects, p).outcome.Done?
    requires j1 == j0 + Run(rejects, p).accepted
    requires j2 == j1 + Run(rejects, q).accepted
    ensures j2 == j0 + Run(rejects, p + q).accepted
    ensures Run(rejects, p + q).outcome == Run(rejects, q).outcome
  {
    var rq := Run(rejects, q);
    RunAppend(rejects, p, q);
    assert Run(rejects, p + q) == RunResult(p + rq.accepted, rq.outcome);
    assert j1 == j0 + p;
    AppendAssoc(j0, p, rq.accepted);
  }

  lemma AppendAssoc(a: seq<Statement>, b: seq<Statement>, c: seq<Statement>)
    ensures a + b + c == a + (b + c)
  {
  }

  class Database {
    /** The statements the store accepted, oldest first. */
    var journal: seq<Statement>
    /** The journal when the open transaction began, if one is open. */
    var snapshot: Option<seq<Statement>>
    /** Which statements the engine refuses (a constraint, a missing table, a broken connection). */
    const rejects: Statement -> bool

    constructor(rejects: Statement -> bool)
      ensures journal == [] && snapshot == None && this.rejects == rejects
    {
      journal, snapshot := [], None;
      this.rejects := rejects;
    }

    /** cnn.Execute: a refused statement raises and writes nothing; an accepted one is recorded. */
    method Execute(s: Statement) returns (outcome: Outcome)
      modifies this`journal
      ensures journal == old(journal) + Run(rejects, [s]).accepted
      ensures outcome == Run(rejects, [s]).outcome
    {
      if rejects(s) {
        outcome := Failed(s);
      } else {
        journal := journal + [s];
        outcome := Done;
        assert [s][1..] == [];
      }
    }

    /** cnn.BeginTransaction on a connection with no transaction open. */
    method BeginTransaction()
      requires snapshot == None
      modifies this`snapshot
      ensures snapshot == Some(journal)
    {
      snapshot := Some(journal);
    }

    /** transaction.Commit: what was written since the transaction began stays. */
    method Commit()
      requires snapshot.Some?
      modifies this`snapshot
      ensures snapshot == None
    {
      snapshot := None;
    }

    /** transaction.Rollback: everything written since the transaction began is undone. */
    method Rollback()
      requires snapshot.Some?
      modifies this`journal, this`snapshot
      ensures journal == old(snapshot.value) && snapshot == None
    {
      journal := snapshot.value;
      snapshot := None;
    }
  }
}
