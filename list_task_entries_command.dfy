/**
 * ListTaskEntriesCommand (src/Clients/TasksTracker.Cli/Commands/ListTaskEntriesCommand.cs):
 * reads a date range and tags from the command line (or the prompts),
 * refuses a range that ends before it starts, and otherwise queries the
 * entries in the range. Date parsing is the runtime's and is a parameter;
 * the query itself and the table it fills are left abstract: the model
 * stops at the arguments the query is called with.
 */
module ListCommand {
  import opened Wrappers
  import opened Text
  import opened EntityBase
  import opened TagModel
  import opened CommandBase

  /** DateTime.TryParse: the date a text stands for, if any. */
  type DateParser = string -> Option<DateTime>

  /** The command line; an absent date argument is the empty text. */
  datatype ListSettings = ListSettings(prompt: bool, fromDate: string, toDate: string, tags: TagsArgument)

  /**
   * What the user answers when asked: the From Date prompt only accepts a
   * parseable date (today by default), so its answer is a date; the To Date
   * answer is free text; then the tags.
   */
  datatype ListAnswers = ListAnswers(fromDate: DateTime, toDate: string, tags: TagsAnswers)

  /** The arguments GetDateRangeTagsList is called with; no upper bound when `to` is None. */
  datatype RangeQuery = RangeQuery(from: DateTime, to: Option<DateTime>, tags: seq<string>)

  /** An argument the parser cannot read: it is there but is not a date. */
  predicate Unparseable(current: string, tryParse: DateParser) {
    current != [] && tryParse(current).None?
  }

  /** PromptToDate: no bound for a blank answer or one that is not a date, else the trimmed answer's date. */
  function PromptToDate(response: string, tryParse: DateParser): (r: Option<DateTime>)
    ensures r.Some? ==> r == tryParse(Trim(response))
    ensures r.None? <==> Blank(response) || tryParse(Trim(response)).None?
  {
    BlankTrim(response);
    if Trim(response) == [] then None else tryParse(Trim(response))
  }

  /** Whitespace around the To Date answer makes no difference. */
  lemma PromptToDatePadded(w1: string, x: string, w2: string, tryParse: DateParser)
    requires AllWhiteSpace(w1) && AllWhiteSpace(w2)
    ensures PromptToDate(w1 + x + w2, tryParse) == PromptToDate(x, tryParse)
  {
    TrimAround(w1, x, w2);
  }

  /** A blank To Date answer sets no upper bound, whatever the parser says. */
  lemma PromptToDateBlank(response: string, tryParse: DateParser)
    requires AllWhiteSpace(response)
    ensures PromptToDate(response, tryParse) == None
  {
    BlankTrim(response);
  }

  /** The state Execute reaches before the range check: the flag, then the two bounds and the tags. */
  datatype Filter = Filter(prompted: bool, from: DateTime, to: Option<DateTime>, tags: seq<string>)

  /**
   * What Execute computes, in its order: the flag from the settings; the
   * From bound, prompted for or parsed (a parse failure turns prompting on
   * and asks); the To bound, prompted for when the flag is now on, parsed
   * otherwise (a failure turns prompting on and asks); then the tags with
   * the flag as it then stands.
   */
  function ListFilter(settings: ListSettings, today: DateTime, tryParse: DateParser,
                      answers: ListAnswers, tagList: seq<Tag>): (r: Filter)
    ensures settings.prompt ==> r.prompted && r.from == answers.fromDate
    ensures r.tags == PromptTagsIfMissing(settings.tags, r.prompted, tagList, answers.tags)
    ensures r.prompted ==> r.to == PromptToDate(answers.toDate, tryParse)
    ensures !r.prompted && r.to.Some? ==> r.to == tryParse(settings.toDate)
  {
    var p1 := settings.prompt || Unparseable(settings.fromDate, tryParse);
    var from :=
      if settings.prompt || Unparseable(settings.fromDate, tryParse) then answers.fromDate
      else if settings.fromDate == [] then today
      else tryParse(settings.fromDate).value;
    var p2 := p1 || Unparseable(settings.toDate, tryParse);
    var to :=
      if p1 || Unparseable(settings.toDate, tryParse) then PromptToDate(answers.toDate, tryParse)
      else if settings.toDate == [] then None
      else tryParse(settings.toDate);
    Filter(p2, from, to, PromptTagsIfMissing(settings.tags, p2, tagList, answers.tags))
  }

  /** The range check: a query runs unless there is an upper bound and the range ends before it starts. */
  function QueryOf(f: Filter): (r: Option<RangeQuery>)
    ensures r.None? <==> f.to.Some? && f.from > f.to.value
    ensures r.Some? ==> r.value == RangeQuery(f.from, f.to, f.tags)
  {
    if f.to.Some? && f.from > f.to.value then None else Some(RangeQuery(f.from, f.to, f.tags))
  }

  /** Without prompting, an absent From Date means today and an absent To Date means no upper bound. */
  lemma DefaultRange(settings: ListSettings, today: DateTime, tryParse: DateParser,
                     answers: ListAnswers, tagList: seq<Tag>)
    requires !settings.prompt && settings.fromDate == [] && settings.toDate == []
    ensures ListFilter(settings, today, tryParse, answers, tagList).from == today
    ensures ListFilter(settings, today, tryParse, answers, tagList).to == None
    ensures !ListFilter(settings, today, tryParse, answers, tagList).prompted
  {
  }

  /** Dates that parse are taken as parsed, and nothing is asked for them. */
  lemma ParsedRange(settings: ListSettings, today: DateTime, tryParse: DateParser,
                    answers: ListAnswers, tagList: seq<Tag>)
    requires !settings.prompt
    requires tryParse(settings.fromDate).Some? && tryParse(settings.toDate).Some?
    requires settings.fromDate != [] && settings.toDate != []
    ensures ListFilter(settings, today, tryParse, answers, tagList).from == tryParse(settings.fromDate).value
    ensures ListFilter(settings, today, tryParse, answers, tagList).to == tryParse(settings.toDate)
    ensures !ListFilter(settings, today, tryParse, answers, tagList).prompted
  {
  }

  /** Prompting ends up on exactly when asked for or when a date argument does not parse. */
  lemma PromptedIff(settings: ListSettings, today: DateTime, tryParse: DateParser,
                    answers: ListAnswers, tagList: seq<Tag>)
    ensures ListFilter(settings, today, tryParse, answers, tagList).prompted <==>
      settings.prompt || Unparseable(settings.fromDate, tryParse) || Unparseable(settings.toDate, tryParse)
  {
  }

  /**
   * A From Date that does not parse makes the command ask for the To Date
   * too, even when none was given, and for the tags when none were given.
   */
  lemma BadFromDateAsksForTheRest(settings: ListSettings, today: DateTime, tryParse: DateParser,
                                  answers: ListAnswers, tagList: seq<Tag>)
    requires Unparseable(settings.fromDate, tryParse)
    ensures ListFilter(settings, today, tryParse, answers, tagList).from == answers.fromDate
    ensures ListFilter(settings, today, tryParse, answers, tagList).to == PromptToDate(answers.toDate, tryParse)
    ensures settings.tags.SharedEmpty? ==>
      ListFilter(settings, today, tryParse, answers, tagList).tags == AnswerTags(answers.tags, tagList)
  {
  }

  /** Without an upper bound the query always runs, from the From bound on. */
  lemma NoUpperBoundRuns(f: Filter)
    requires f.to.None?
    ensures QueryOf(f) == Some(RangeQuery(f.from, None, f.tags))
  {
  }

  /** Without prompting and without a To Date, a From Date that parses always gives a query. */
  lemma NoToDateRuns(settings: ListSettings, today: DateTime, tryParse: DateParser,
                     answers: ListAnswers, tagList: seq<Tag>)
    requires !settings.prompt && settings.toDate == [] && !Unparseable(settings.fromDate, tryParse)
    ensures QueryOf(ListFilter(settings, today, tryParse, answers, tagList)).Some?
  {
    NoUpperBoundRuns(ListFilter(settings, today, tryParse, answers, tagList));
  }

  class ListTaskEntriesCommand {
    var promptForInput: bool
    /** The saved tags, offered when the user asks to see the list. */
    const tagList: seq<Tag>

    constructor(savedTags: seq<Tag>)
      ensures tagList == savedTags && !promptForInput
    {
      tagList := savedTags;
      promptForInput := false;
    }

    /** ParseFromDate: today for no argument, the parsed date, or (prompting turned on) the From Date answer. */
    method ParseFromDate(current: string, today: DateTime, tryParse: DateParser, answer: DateTime)
      returns (d: DateTime)
      modifies this`promptForInput
      ensures current == [] ==> d == today && promptForInput == old(promptForInput)
      ensures current != [] && tryParse(current).Some? ==>
        d == tryParse(current).value && promptForInput == old(promptForInput)
      ensures Unparseable(current, tryParse) ==> d == answer && promptForInput
    {
      if current == [] {
        return today;
      }
      var parsed := tryParse(current);
      if parsed.Some? {
        return parsed.value;
      }
      promptForInput := true;
      d := answer;
    }

    /** ParseToDate: no bound for no argument, the parsed date, or (prompting turned on) the To Date answer. */
    method ParseToDate(current: string, tryParse: DateParser, response: string)
      returns (d: Option<DateTime>)
      modifies this`promptForInput
      ensures current == [] ==> d == None && promptForInput == old(promptForInput)
      ensures current != [] && tryParse(current).Some? ==>
        d == tryParse(current) && promptForInput == old(promptForInput)
      ensures Unparseable(current, tryParse) ==> d == PromptToDate(response, tryParse) && promptForInput
    {
      if current == [] {
        return None;
      }
      var parsed := tryParse(current);
      if parsed.Some? {
        return parsed;
      }
      promptForInput := true;
      d := PromptToDate(response, tryParse);
    }

    /**
     * Execute: the bounds and tags of ListFilter, then the range check;
     * `query` is the call of GetDateRangeTagsList, None when the range is
     * refused. 0 is returned on every path.
     */
    method Execute(settings: ListSettings, today: DateTime, tryParse: DateParser, answers: ListAnswers)
      returns (code: int, query: Option<RangeQuery>)
      modifies this`promptForInput
      ensures promptForInput == ListFilter(settings, today, tryParse, answers, tagList).prompted
      ensures query == QueryOf(ListFilter(settings, today, tryParse, answers, tagList))
      ensures code == 0
    {
      promptForInput := settings.prompt;
      var fromDate: DateTime;
      if promptForInput {
        fromDate := answers.fromDate;
      } else {
        fromDate := ParseFromDate(settings.fromDate, today, tryParse, answers.fromDate);
      }
      var toDate: Option<DateTime>;
      if promptForInput {
        toDate := PromptToDate(answers.toDate, tryParse);
      } else {
        toDate := ParseToDate(settings.toDate, tryParse, answers.toDate);
      }
      var tags := PromptTagsIfMissing(settings.tags, promptForInput, tagList, answers.tags);
      if toDate.Some? && fromDate > toDate.value {
        return 0, None;
      }
      return 0, Some(RangeQuery(fromDate, toDate, tags));
    }
  }
}
