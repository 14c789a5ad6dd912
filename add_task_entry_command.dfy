/**
 * AddTaskEntryCommand (src/Clients/TasksTracker.Cli/Commands/AddTaskEntryCommand.cs):
 * builds a new entry from the command line (or the prompts' answers), stops
 * when an entry with the same slug exists today, resolves the tag strings
 * against the saved tags and saves the entry.
 */
module AddCommand {
  import opened Wrappers
  import opened Text
  import opened EntityBase
  import opened TagModel
  import opened LinkModel
  import opened TaskEntryModel
  import opened SlugifyTitle
  import opened SaveLists
  import opened Store
  import opened CommandBase
  import TagRepository
  import TaskEntryRepository

  // ------------------------------------------------------------ tag lookup

  /** The index of the first saved tag whose title, lower-cased, is `clean`. */
  function FindSaved(tagList: seq<Tag>, clean: string): (r: Option<nat>)
    ensures r.Some? ==> r.value < |tagList| && ToLower(tagList[r.value].title) == clean
    ensures r.Some? ==> forall j :: 0 <= j < r.value ==> ToLower(tagList[j].title) != clean
    ensures r.None? <==> forall j :: 0 <= j < |tagList| ==> ToLower(tagList[j].title) != clean
  {
    if tagList == [] then None
    else if ToLower(tagList[0].title) == clean then Some(0)
    else match FindSaved(tagList[1..], clean)
      case None => None
      case Some(i) => Some(i + 1)
  }

  /** The index of the first default tag. */
  function FirstDefault(tagList: seq<Tag>): (r: Option<nat>)
    ensures r.Some? ==> r.value < |tagList| && tagList[r.value].isDefault
    ensures r.Some? ==> forall j :: 0 <= j < r.value ==> !tagList[j].isDefault
    ensures r.None? <==> forall j :: 0 <= j < |tagList| ==> !tagList[j].isDefault
  {
    if tagList == [] then None
    else if tagList[0].isDefault then Some(0)
    else match FirstDefault(tagList[1..])
      case None => None
      case Some(i) => Some(i + 1)
  }

  /** The first saved tag matching `clean`, otherwise a new tag built from it. */
  function ResolveWith(tagList: seq<Tag>, clean: string): (r: Tag)
    ensures r in tagList || r == NewTag(clean)
    ensures FindSaved(tagList, clean).Some? ==> r in tagList
  {
    match FindSaved(tagList, clean)
    case Some(i) => tagList[i]
    case None => NewTag(clean)
  }

  // ------------------------------------------------------- tag cleaning

  /** GenTags' cleaning as the source writes it: trim, drop ',' '.' ';', lower-case. */
  function CleanTagAsWritten(s: string): (r: string)
    ensures NoUpper(r) && |r| <= |Trim(s)|
  {
    var removed := Remove(Remove(Remove(Trim(s), ','), '.'), ';');
    ToLowerSpec(removed);
    ToLower(removed)
  }

  /** The resolution of one tag string as the source writes it. */
  function ResolveTagAsWritten(tagList: seq<Tag>, s: string): (r: Tag)
    ensures r in tagList || r == NewTag(CleanTagAsWritten(s))
  {
    ResolveWith(tagList, CleanTagAsWritten(s))
  }

  /**
   * The cleaned string has no upper-case letter and none of ',' '.' ';';
   * every other non-letter of the trimmed string (whitespace before the
   * removed characters, '|') is still there, and nothing else is added.
   */
  lemma CleanTagAsWrittenSpec(s: string)
    ensures NoUpper(CleanTagAsWritten(s))
    ensures ',' !in CleanTagAsWritten(s) && '.' !in CleanTagAsWritten(s) && ';' !in CleanTagAsWritten(s)
    ensures forall c :: !IsLetter(c) && c != ',' && c != '.' && c != ';' ==>
      (c in CleanTagAsWritten(s) <==> c in Trim(s))
    ensures |CleanTagAsWritten(s)| <= |Trim(s)|
  {
    var removed := Remove(Remove(Remove(Trim(s), ','), '.'), ';');
    ToLowerSpec(removed);
    forall c | !IsLetter(c) ensures c in CleanTagAsWritten(s) <==> c in removed {
      ToLowerKeeps(removed, c);
    }
  }

  /**
   * The resolved tag is the first saved tag whose lower-cased title is the
   * cleaned string; only when there is none is a new tag built from it.
   */
  lemma ResolveTagAsWrittenSpec(tagList: seq<Tag>, s: string)
    ensures FindSaved(tagList, CleanTagAsWritten(s)).Some? ==>
      && ResolveTagAsWritten(tagList, s) in tagList
      && ToLower(ResolveTagAsWritten(tagList, s).title) == CleanTagAsWritten(s)
    ensures FindSaved(tagList, CleanTagAsWritten(s)).None? ==>
      && ResolveTagAsWritten(tagList, s) == NewTag(CleanTagAsWritten(s))
      && forall j :: 0 <= j < |tagList| ==> ToLower(tagList[j].title) != CleanTagAsWritten(s)
  {
  }

  /**
   * Without ',' '.' ';' '|' in the string, the cleaning as written and the
   * corrected one agree: the discrepancy needs one of those characters.
   */
  lemma CleanTagsAgree(s: string)
    requires ',' !in s && '.' !in s && ';' !in s && '|' !in s
    ensures CleanTagAsWritten(s) == CleanTagTitle(s)
  {
    var t := Trim(s);
    RemoveAbsentThree(t, ',', '.', ';');
    var l := ToLower(s);
    ToLowerKeeps(s, ',');
    ToLowerKeeps(s, '.');
    ToLowerKeeps(s, ';');
    ToLowerKeeps(s, '|');
    RemoveAbsent(l, ',');
    RemoveAbsentThree(l, '.', ';', '|');
    TrimToLower(s);
  }

  /** On such strings the two resolutions agree too. */
  lemma ResolveTagsAgree(tagList: seq<Tag>, s: string)
    requires ',' !in s && '.' !in s && ';' !in s && '|' !in s
    ensures ResolveTagAsWritten(tagList, s) == ResolveTag(tagList, s)
  {
    CleanTagsAgree(s);
  }

  /**
   * The resolution of one tag string, cleaned as a tag title is (lower-case,
   * drop ',' '.' ';' '|', then trim), so that it is compared with the saved
   * titles in the form they were stored in.
   */
  function ResolveTag(tagList: seq<Tag>, s: string): (r: Tag)
    ensures r in tagList || r == NewTag(CleanTagTitle(s))
  {
    ResolveWith(tagList, CleanTagTitle(s))
  }

  /**
   * A resolved tag's title, lower-cased, is the cleaned string: the saved
   * tag when one has it, and a new tag only when no saved tag has that title
   * in any letter case.
   */
  lemma ResolveTagSpec(tagList: seq<Tag>, s: string)
    ensures ToLower(ResolveTag(tagList, s).title) == CleanTagTitle(s)
    ensures FindSaved(tagList, CleanTagTitle(s)).Some? ==> ResolveTag(tagList, s) in tagList
    ensures FindSaved(tagList, CleanTagTitle(s)).None? ==>
      && ResolveTag(tagList, s) == NewTag(s)
      && forall j :: 0 <= j < |tagList| ==> ToLower(tagList[j].title) != ToLower(ResolveTag(tagList, s).title)
  {
    var clean := CleanTagTitle(s);
    if FindSaved(tagList, clean).None? {
      TagTitleSpec(clean);
      CleanTagTitleIdempotent(s);
      assert NewTag(clean) == NewTag(s);
    }
  }

  /** A saved "Work" tag and the string "work ,": the title every saved tag in the findings shares. */
  function SavedWork(): Tag {
    Tag(1, MinDate, MinDate, MinDate, "Work", false, 2)
  }

  lemma SavedWorkLower()
    ensures ToLower(SavedWork().title) == "work"
  {
    var l := ToLower("Work");
    assert l[0] == 'w' && l[1] == 'o' && l[2] == 'r' && l[3] == 'k';
  }

  /**
   * As written, "work ," is trimmed while the comma still ends it, so it
   * cleans to "work " (with the space), misses the saved "Work", and a
   * second tag titled "Work" is made.
   */
  lemma ResolveTagAsWrittenDuplicates()
    ensures CleanTagAsWritten("work ,") == "work "
    ensures FindSaved([SavedWork()], CleanTagAsWritten("work ,")).None?
    ensures ResolveTagAsWritten([SavedWork()], "work ,") != SavedWork()
    ensures ResolveTagAsWritten([SavedWork()], "work ,").title == SavedWork().title
  {
    CleanWorkAsWritten();
    SavedWorkLower();
    assert FindSaved([SavedWork()], "work ") == None by {
      assert ToLower(SavedWork().title) != "work ";
    }
    NormalizeWorkSpace();
  }

  lemma CleanWorkAsWritten()
    ensures CleanTagAsWritten("work ,") == "work "
  {
    calc {
      CleanTagAsWritten("work ,");
      ToLower(Remove(Remove(Remove(Trim("work ,"), ','), '.'), ';'));
      { TrimWorkComma(); }
      ToLower(Remove(Remove(Remove("work ,", ','), '.'), ';'));
      { ExampleRemove(); }
      ToLower(Remove(Remove("work ", '.'), ';'));
      { RemoveWorkSpace(); }
      ToLower("work ");
      { ToLowerOfNoUpper("work "); }
      "work ";
    }
  }

  lemma TrimWorkComma()
    ensures Trim("work ,") == "work ,"
  {
    TrimTrimmed("work ,");
  }

  lemma RemoveWorkSpace()
    ensures Remove(Remove("work ", '.'), ';') == "work "
  {
    RemoveAbsent("work ", '.');
    RemoveAbsent("work ", ';');
  }

  lemma NormalizeWorkSpace()
    ensures NormalizeTagTitle("work ") == "Work"
  {
    CleanWorkSpace();
    ExampleTitleCase();
  }

  lemma CleanWorkSpace()
    ensures CleanTagTitle("work ") == "work"
  {
    ToLowerOfNoUpper("work ");
    RemoveAbsent("work ", ',');
    ExampleRemoveAbsent();
    ExampleTrim();
  }

  /** Cleaned as a tag title, "work ," finds the saved "Work". */
  lemma ResolveTagFindsWork()
    ensures ResolveTag([SavedWork()], "work ,") == SavedWork()
  {
    ExampleClean();
    SavedWorkLower();
  }

  // ------------------------------------------------------------ GenTags

  /**
   * What GenTags returns: for no tag strings, the first default tag (None:
   * there is none, and the source throws); otherwise one tag per string,
   * in order.
   */
  function GeneratedTags(tagList: seq<Tag>, tags: seq<string>): (r: Option<seq<Tag>>)
    ensures tags == [] ==> (r.None? <==> forall j :: 0 <= j < |tagList| ==> !tagList[j].isDefault)
    ensures tags == [] && r.Some? ==> |r.value| == 1 && r.value[0] in tagList && r.value[0].isDefault
    ensures tags == [] && r.Some? ==>
      exists k :: 0 <= k < |tagList| && r.value == [tagList[k]] && tagList[k].isDefault &&
        forall j :: 0 <= j < k ==> !tagList[j].isDefault
    ensures tags != [] ==> r.Some? && |r.value| == |tags|
    ensures tags != [] ==> forall i :: 0 <= i < |tags| ==> r.value[i] == ResolveTagAsWritten(tagList, tags[i])
  {
    if tags == [] then
      match FirstDefault(tagList)
      case None => None
      case Some(i) => Some([tagList[i]])
    else
      Some(ResolveAll(tagList, tags))
  }

  /** The tags the loop of GenTags collects: one resolved tag per string, in order. */
  function ResolveAll(tagList: seq<Tag>, tags: seq<string>): (r: seq<Tag>)
    ensures |r| == |tags|
    ensures forall i :: 0 <= i < |tags| ==> r[i] == ResolveTagAsWritten(tagList, tags[i])
  {
    MapEach(s => ResolveTagAsWritten(tagList, s), tags)
  }

  /**
   * When no tag string holds ',' '.' ';' '|', GenTags gives the tags the
   * corrected cleaning would give.
   */
  lemma ResolveAllAgrees(tagList: seq<Tag>, tags: seq<string>)
    requires forall i :: 0 <= i < |tags| ==> ',' !in tags[i] && '.' !in tags[i] && ';' !in tags[i] && '|' !in tags[i]
    ensures forall i :: 0 <= i < |tags| ==> ResolveAll(tagList, tags)[i] == ResolveTag(tagList, tags[i])
  {
    forall i | 0 <= i < |tags| ensures ResolveAll(tagList, tags)[i] == ResolveTag(tagList, tags[i]) {
      ResolveTagsAgree(tagList, tags[i]);
    }
  }

  /** f applied to each element, built from the back as a loop appends. */
  function MapEach<A, B>(f: A -> B, xs: seq<A>): (r: seq<B>)
    ensures |r| == |xs|
    ensures forall i :: 0 <= i < |xs| ==> r[i] == f(xs[i])
  {
    if xs == [] then []
    else MapEach(f, xs[..|xs| - 1]) + [f(xs[|xs| - 1])]
  }

  // ------------------------------------------------------------ the command

  datatype AddSettings = AddSettings(title: string, note: string, tags: TagsArgument)

  /** What the user types at the prompts: the title, the notes and the tags. */
  datatype AddAnswers = AddAnswers(title: string, notes: string, tags: TagsAnswers)

  /** How a run ends: stopped at the duplicate gate, thrown for want of a default tag, or saved. */
  datatype AddResult = AlreadyExists(found: Guid) | NoDefaultTag | Saved(store: Outcome)

  /** PromptTitleIfMissing: the argument when there is one, otherwise the prompt's answer. */
  function PromptTitleIfMissing(current: string, answer: string): (r: string)
    ensures current != [] ==> r == current
    ensures current == [] ==> r == answer
  {
    if current != [] then current else answer
  }

  /** PromptNotesIfMissing: the argument when there is one; otherwise the answer when prompting, else "". */
  function PromptNotesIfMissing(current: string, promptForInput: bool, answer: string): (r: string)
    ensures current != [] ==> r == current
    ensures current == [] && !promptForInput ==> r == []
    ensures current == [] && promptForInput ==> r == answer
  {
    if current != [] then current else if promptForInput then answer else []
  }

  class AddTaskEntryCommand {
    var promptForInput: bool
    /** The saved tags, read once when the command is built. */
    const tagList: seq<Tag>

    constructor(savedTags: seq<Tag>)
      ensures tagList == savedTags && !promptForInput
    {
      tagList := savedTags;
      promptForInput := false;
    }

    /** GenTags: one resolved tag per string, or the default tag for none. */
    method GenTags(tags: seq<string>) returns (r: Option<seq<Tag>>)
      ensures r == GeneratedTags(tagList, tags)
    {
      if tags == [] {
        var d := FirstDefault(tagList);
        if d.None? {
          return None;
        }
        return Some([tagList[d.value]]);
      }
      var results := ResolveEach(tags);
      r := Some(results);
    }

    /** The loop of GenTags over a non-empty list: each string resolved against the saved tags. */
    method ResolveEach(tags: seq<string>) returns (results: seq<Tag>)
      ensures results == ResolveAll(tagList, tags)
    {
      results := [];
      var i := 0;
      while i < |tags|
        invariant 0 <= i <= |tags|
        invariant results == ResolveAll(tagList, tags[..i])
      {
        assert tags[..i + 1][..i] == tags[..i];
        results := results + [ResolveTagAsWritten(tagList, tags[i])];
        i := i + 1;
      }
      assert tags[..i] == tags;
    }

    /**
     * Execute up to the call of Save: the entry is built with status Created
     * from the trimmed title; the run stops when ExistsToday knows its slug,
     * or when there is no tag string and no default tag (the source throws);
     * otherwise the notes and tags are filled in and `stop` is None.
     */
    method Prepare(settings: AddSettings, answers: AddAnswers, generate: SlugGenerator, existsToday: string -> Guid)
      returns (stop: Option<AddResult>, entry: TaskEntry)
      modifies this`promptForInput
      ensures fresh(entry)
      ensures promptForInput == (settings.title == [])
      ensures entry.status == Created && entry.links == [] && entry.id == EmptyId
      ensures entry.title == NormalizeTaskTitle(Trim(PromptTitleIfMissing(settings.title, answers.title)))
      ensures entry.slug == Slugify(generate, Trim(PromptTitleIfMissing(settings.title, answers.title)))
      ensures (stop.Some? && stop.value.AlreadyExists?) <==> existsToday(entry.slug) != EmptyId
      ensures stop.Some? && stop.value.AlreadyExists? ==> stop.value.found == existsToday(entry.slug)
      ensures stop.None? || stop.value.AlreadyExists? || stop.value.NoDefaultTag?
      ensures existsToday(entry.slug) == EmptyId ==>
        && entry.notes == Trim(PromptNotesIfMissing(settings.note, settings.title == [], answers.notes))
        && var tags := PromptTagsIfMissing(settings.tags, settings.title == [], tagList, answers.tags);
           (stop == Some(NoDefaultTag) <==> GeneratedTags(tagList, tags).None?)
           && (stop.None? ==> entry.tags == GeneratedTags(tagList, tags).value)
    {
      promptForInput := settings.title == [];
      var title := PromptTitleIfMissing(settings.title, answers.title);
      entry := NewEntry(Trim(title), generate);
      var found := existsToday(entry.slug);
      if found != EmptyId {
        return Some(AlreadyExists(found)), entry;
      }
      var notes := PromptNotesIfMissing(settings.note, promptForInput, answers.notes);
      var tagStrings := PromptTagsIfMissing(settings.tags, promptForInput, tagList, answers.tags);
      entry.notes := Trim(notes);
      var tags := GenTags(tagStrings);
      if tags.None? {
        return Some(NoDefaultTag), entry;
      }
      entry.tags := tags.value;
      stop := None;
    }

    /**
     * Execute: Prepare, then, unless it stopped, Save, which inserts the
     * entry (it has no id yet) with its tags in one transaction. `exit` is
     * the code returned, 0, or None where an exception leaves the command:
     * no default tag to fall back on, or a refused insert that Insert
     * rethrows after its rollback.
     */
    method Execute(settings: AddSettings, answers: AddAnswers, generate: SlugGenerator,
                   existsToday: string -> Guid, db: Database, ids: Guids, now: DateTime, later: DateTime,
                   tagsSorted: ToSaveLists<Tag>, linksSorted: ToSaveLists<TaskEntryLink>)
      returns (exit: Option<int>, result: AddResult, entry: TaskEntry, ghost rowIds: seq<Guid>,
               ghost plan: seq<Statement>)
      requires ids.Valid() && db.snapshot == None
      modifies this`promptForInput, db`journal, db`snapshot, ids, linksSorted.toInsert`taskEntryId
      ensures fresh(entry) && ids.Valid() && db.snapshot == None
      ensures exit.Some? <==> result.AlreadyExists? || (result.Saved? && result.store.Done?)
      ensures exit.Some? ==> exit.value == 0
      ensures entry.status == Created
      ensures entry.title == NormalizeTaskTitle(Trim(PromptTitleIfMissing(settings.title, answers.title)))
      ensures entry.slug == Slugify(generate, Trim(PromptTitleIfMissing(settings.title, answers.title)))
      ensures result.AlreadyExists? <==> existsToday(entry.slug) != EmptyId
      ensures result.AlreadyExists? ==> result.found == existsToday(entry.slug)
      ensures !result.AlreadyExists? ==>
        (result.NoDefaultTag? <==>
           GeneratedTags(tagList, PromptTagsIfMissing(settings.tags, settings.title == [], tagList, answers.tags)).None?)
      ensures result.Saved? ==>
        entry.notes == Trim(PromptNotesIfMissing(settings.note, settings.title == [], answers.notes))
      ensures result.Saved? ==>
        entry.tags == GeneratedTags(tagList, PromptTagsIfMissing(settings.tags, settings.title == [], tagList, answers.tags)).value
      ensures !result.Saved? ==> db.journal == old(db.journal) && ids.issued == old(ids.issued)
      ensures result.Saved? ==>
        InsertedNew(db, entry, tagsSorted, old(db.journal), old(ids.issued), rowIds, plan, result.store)
    {
      var stop;
      ghost var journal, issued := db.journal, ids.issued;
      stop, entry := Prepare(settings, answers, generate, existsToday);
      ghost var fields := (entry.status, entry.title, entry.slug, entry.notes, entry.tags);
      exit, result, rowIds, plan := SaveUnlessStopped(stop, db, ids, entry, now, later, tagsSorted, linksSorted);
      assert (entry.status, entry.title, entry.slug, entry.notes, entry.tags) == fields;
      assert journal == old(db.journal) && issued == old(ids.issued);
    }
  }

  /** new TaskEntry { Status = Created, Title = title }. */
  method NewEntry(title: string, generate: SlugGenerator) returns (entry: TaskEntry)
    ensures fresh(entry)
    ensures entry.status == Created && entry.links == [] && entry.id == EmptyId
    ensures entry.title == NormalizeTaskTitle(title) && entry.slug == Slugify(generate, title)
  {
    entry := new TaskEntry();
    entry.status := Created;
    entry.SetTitle(title, generate);
  }

  /**
   * What saving a new entry leaves behind: the entry has an id never issued
   * before, and the store holds, all or nothing, the entry row followed by
   * the tag writes against that id (a new entry from the command line has
   * no links).
   */
  ghost predicate InsertedNew(db: Database, entry: TaskEntry, tagsSorted: ToSaveLists<Tag>,
                              journal0: seq<Statement>, issued0: seq<Guid>, rowIds: seq<Guid>,
                              plan: seq<Statement>, store: Outcome)
    reads db, entry, tagsSorted
  {
    && entry.id != EmptyId && entry.id !in issued0
    && |rowIds| <= |TagRepository.Glued(tagsSorted.combined)|
    && plan == TaskEntryRepository.InsertPlan(entry.Row(),
         TaskEntryRepository.TagWrites(entry.tags, tagsSorted.toInsert, tagsSorted.toUpdate,
                                       tagsSorted.combined, entry.id, rowIds), [])
    && TaskEntryRepository.AllOrNothing(db.rejects, journal0, db.journal, plan, store)
  }

  /**
   * The rest of Execute once Prepare is done: when Prepare stopped, its
   * result (0 for an entry that exists already, an exception for want of a
   * default tag) and nothing written; otherwise Save on the entry, which has
   * no id and no links, so it is inserted, and 0 unless the insert was
   * refused.
   */
  method SaveUnlessStopped(stop: Option<AddResult>, db: Database, ids: Guids, entry: TaskEntry,
                           now: DateTime, later: DateTime,
                           tagsSorted: ToSaveLists<Tag>, linksSorted: ToSaveLists<TaskEntryLink>)
    returns (exit: Option<int>, result: AddResult, ghost rowIds: seq<Guid>, ghost plan: seq<Statement>)
    requires stop.None? || stop.value.AlreadyExists? || stop.value.NoDefaultTag?
    requires ids.Valid() && db.snapshot == None
    requires entry.id == EmptyId && entry.links == []
    modifies entry`updatedAt, entry`id, entry`createdAt
    modifies db`journal, db`snapshot, ids, linksSorted.toInsert`taskEntryId
    ensures ids.Valid() && db.snapshot == None
    ensures stop.Some? ==> result == stop.value
    ensures stop.None? <==> result.Saved?
    ensures exit.Some? <==> result.AlreadyExists? || (result.Saved? && result.store.Done?)
    ensures exit.Some? ==> exit.value == 0
    ensures !result.Saved? ==> db.journal == old(db.journal) && ids.issued == old(ids.issued)
    ensures result.Saved? ==> entry.updatedAt == now && entry.createdAt == later
    ensures result.Saved? ==> ids.issued == old(ids.issued) + [entry.id] + rowIds
    ensures result.Saved? ==>
      InsertedNew(db, entry, tagsSorted, old(db.journal), old(ids.issued), rowIds, plan, result.store)
  {
    rowIds, plan := [], [];
    if stop.Some? {
      result := stop.value;
      exit := if result.AlreadyExists? then Some(0) else None;
      return;
    }
    var store;
    store, rowIds, plan := TaskEntryRepository.Save(db, ids, entry, now, later, tagsSorted, linksSorted);
    result := Saved(store);
    exit := if store.Done? then Some(0) else None;
  }
}
