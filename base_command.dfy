/**
 * BaseCommand (src/Clients/TasksTracker.Cli/Commands/BaseCommand.cs): the
 * shaping of the tags a command receives. A single tags argument is broken
 * into words; several arguments are taken as they are; with no argument the
 * user may be asked, and the answer is post-processed. The prompts
 * themselves are user interface: their answers are parameters here.
 */
module CommandBase {
  import opened Text
  import opened TagModel

  /**
   * The tags argument as the command receives it: the shared empty array
   * that is the settings' default, or an array the parser built (possibly
   * empty: the source tells the two apart by reference).
   */
  datatype TagsArgument = SharedEmpty | Given(items: seq<string>)

  /** What the user answers when asked for tags. */
  datatype TagsAnswers = TagsAnswers(
    response: string,      // the first tags prompt ("Show List" by default)
    retry: string,         // the second prompt, asked when there is no tag to list
    chosen: seq<string>)   // the titles picked in the multi-selection

  /** A piece the source drops: all whitespace, which is to say empty once trimmed (BlankTrim). */
  predicate Blank(t: string) {
    AllWhiteSpace(t)
  }

  lemma BlankTrim(t: string)
    ensures Blank(t) <==> Trim(t) == []
  {
    TrimEmpty(t);
  }

  /** The pieces that are not blank, in their order. */
  function NonBlank(pieces: seq<string>): (r: seq<string>)
    ensures |r| <= |pieces|
  {
    if pieces == [] then []
    else (if Blank(pieces[0]) then [] else [pieces[0]]) + NonBlank(pieces[1..])
  }

  /** NonBlank keeps exactly the pieces that are not blank. */
  lemma {:induction false} NonBlankMembers(pieces: seq<string>)
    ensures forall p :: p in NonBlank(pieces) <==> p in pieces && !Blank(p)
  {
    if pieces != [] {
      NonBlankMembers(pieces[1..]);
      assert pieces == [pieces[0]] + pieces[1..];
    }
  }

  /** The single-argument path: trim, spaces become commas, split on commas, drop blank pieces. */
  function SplitTagsArgument(arg: string): (r: seq<string>)
    ensures Blank(arg) ==> r == []
  {
    BlankTrim(arg);
    NonBlank(Split(ReplaceChar(Trim(arg), ' ', ','), ','))
  }

  /** The post-processing of the tags prompt's answers. */
  function AnswerTags(answers: TagsAnswers, tagList: seq<Tag>): (r: seq<string>)
    ensures answers.response == [] ==> r == []
    ensures ToLower(Trim(answers.response)) == "show list" && tagList != [] ==> r == answers.chosen
    ensures ToLower(Trim(answers.response)) == "show list" && tagList == [] && answers.retry == [] ==> r == []
  {
    if answers.response == [] then []
    else if ToLower(Trim(answers.response)) != "show list" then Split(answers.response, ' ')
    else if tagList == [] then (if answers.retry == [] then [] else Split(answers.retry, ' '))
    else answers.chosen
  }

  /** PromptTagsIfMissing, with the prompt answers as a parameter. */
  function PromptTagsIfMissing(tags: TagsArgument, promptForInput: bool, tagList: seq<Tag>, answers: TagsAnswers)
    : (r: seq<string>)
    ensures tags.Given? && |tags.items| != 1 ==> r == tags.items
    ensures tags.Given? && |tags.items| == 1 ==> r == SplitTagsArgument(tags.items[0])
    ensures tags.SharedEmpty? && !promptForInput ==> r == []
    ensures tags.SharedEmpty? && promptForInput ==> r == AnswerTags(answers, tagList)
  {
    match tags
    case Given(items) => if |items| == 1 then SplitTagsArgument(items[0]) else items
    case SharedEmpty => if !promptForInput then [] else AnswerTags(answers, tagList)
  }

  /**
   * "show list" in any letter case, with any whitespace around it, offers
   * the saved tags when there are some: the answer is what was picked.
   */
  lemma AnswerTagsShowList(w1: string, x: string, w2: string, answers: TagsAnswers, tagList: seq<Tag>)
    requires AllWhiteSpace(w1) && AllWhiteSpace(w2) && SameUpToCase(x, "show list")
    requires answers.response == w1 + x + w2 && tagList != []
    ensures AnswerTags(answers, tagList) == answers.chosen
  {
    TrimAround(w1, x, w2);
    ShowListLower(x);
    assert ToLower(Trim(answers.response)) == "show list";
  }

  lemma ShowListLower(x: string)
    requires SameUpToCase(x, "show list")
    ensures Trim(x) == x && ToLower(x) == "show list"
  {
    var l := "show list";
    assert LowerChar(x[0]) == l[0] && LowerChar(x[8]) == l[8];
    TrimTrimmed(x);
    assert forall i :: 0 <= i < 9 ==> ToLower(x)[i] == LowerChar(l[i]) == l[i];
  }

  /**
   * Any other non-empty answer is split on every single space: the pieces
   * join back to the answer, one more piece than spaces, none holding a
   * space, empty pieces included.
   */
  lemma AnswerTagsSplitsOnSpaces(answers: TagsAnswers, tagList: seq<Tag>)
    requires answers.response != [] && ToLower(Trim(answers.response)) != "show list"
    ensures AnswerTags(answers, tagList) == Split(answers.response, ' ')
    ensures Join(AnswerTags(answers, tagList), ' ') == answers.response
    ensures |AnswerTags(answers, tagList)| == Count(answers.response, ' ') + 1
    ensures forall k :: 0 <= k < |AnswerTags(answers, tagList)| ==> ' ' !in AnswerTags(answers, tagList)[k]
  {
    JoinSplit(answers.response, ' ');
  }

  /** A double space leaves an empty tag string between the words. */
  lemma AnswerTagsKeepsEmptyPieces(answers: TagsAnswers, tagList: seq<Tag>)
    requires answers.response == "work  home"
    ensures AnswerTags(answers, tagList) == ["work", "", "home"]
  {
    var s := answers.response;
    assert Trimmed(s);
    TrimTrimmed(s);
    assert Join(["work", "", "home"], ' ') == s;
    SplitJoin(["work", "", "home"], ' ');
  }

  /** A word: not empty and free of whitespace (so free of ' ' too). */
  predicate Word(w: string) {
    w != [] && forall i :: 0 <= i < |w| ==> !IsWhiteSpace(w[i])
  }

  /**
   * Every piece of the single-argument path is non-blank and holds neither
   * ',' nor ' ', and no non-blank piece of the split is lost.
   */
  lemma SplitTagsArgumentSpec(arg: string)
    ensures forall p :: p in SplitTagsArgument(arg) ==> !Blank(p) && ',' !in p && ' ' !in p
    ensures forall p :: p in Split(ReplaceChar(Trim(arg), ' ', ','), ',') && !Blank(p) ==> p in SplitTagsArgument(arg)
  {
    var s := ReplaceChar(Trim(arg), ' ', ',');
    var ps := Split(s, ',');
    assert ' ' !in s;
    NonBlankMembers(ps);
    forall p | p in SplitTagsArgument(arg) ensures ' ' !in p {
      var k :| 0 <= k < |ps| && ps[k] == p;
      if ' ' in p {
        SplitPieceChars(s, ',', k, ' ');
      }
    }
  }

  /** Dropping blank pieces distributes over concatenation, so the pieces keep their order. */
  lemma {:induction false} NonBlankAppend(a: seq<string>, b: seq<string>)
    ensures NonBlank(a + b) == NonBlank(a) + NonBlank(b)
  {
    if a == [] {
      assert a + b == b;
    } else {
      var head := if Blank(a[0]) then [] else [a[0]];
      assert (a + b)[0] == a[0] && (a + b)[1..] == a[1..] + b;
      assert NonBlank(a + b) == head + NonBlank(a[1..] + b);
      NonBlankAppend(a[1..], b);
    }
  }

  /** Nothing is dropped from a list of words. */
  lemma {:induction false} NonBlankWords(ps: seq<string>)
    requires forall k :: 0 <= k < |ps| ==> Word(ps[k])
    ensures NonBlank(ps) == ps
  {
    if ps != [] {
      assert !IsWhiteSpace(ps[0][0]);
      NonBlankWords(ps[1..]);
    }
  }

  /** Replacing the separator of a join of pieces free of it changes the separator only. */
  lemma {:induction false} ReplaceJoin(ps: seq<string>, a: char, b: char)
    requires forall k :: 0 <= k < |ps| ==> a !in ps[k]
    ensures ReplaceChar(Join(ps, a), a, b) == Join(ps, b)
  {
    if |ps| == 1 {
      var p := ps[0];
      assert forall i :: 0 <= i < |p| ==> p[i] != a;
    } else if |ps| > 1 {
      ReplaceJoin(ps[1..], a, b);
      var x := ps[0] + [a] + Join(ps[1..], a);
      var y := ps[0] + [b] + Join(ps[1..], b);
      forall i | 0 <= i < |x| ensures ReplaceChar(x, a, b)[i] == y[i] {
        if i < |ps[0]| {
          assert x[i] == ps[0][i] && ps[0][i] != a;
        } else if i > |ps[0]| {
          assert x[i] == Join(ps[1..], a)[i - |ps[0]| - 1];
        }
      }
    }
  }

  /**
   * Words separated by single spaces come back word for word and in order
   * from the single-argument path.
   */
  lemma SplitTagsArgumentWords(ps: seq<string>)
    requires |ps| >= 1
    requires forall k :: 0 <= k < |ps| ==> Word(ps[k]) && ',' !in ps[k]
    ensures SplitTagsArgument(Join(ps, ' ')) == ps
  {
    var s := Join(ps, ' ');
    JoinEnds(ps, ' ');
    TrimTrimmed(s);
    ReplaceJoin(ps, ' ', ',');
    SplitJoin(ps, ',');
    NonBlankWords(ps);
  }

  /** A join of words has no whitespace at either end. */
  lemma {:induction false} JoinEnds(ps: seq<string>, d: char)
    requires |ps| >= 1
    requires forall k :: 0 <= k < |ps| ==> Word(ps[k])
    ensures Join(ps, d) != [] && Trimmed(Join(ps, d))
  {
    assert Word(ps[0]);
    if |ps| > 1 {
      JoinEnds(ps[1..], d);
    }
  }

  /** The command line `-g "database server migrate"` gives the three tags in order. */
  lemma SplitTagsArgumentExample()
    ensures SplitTagsArgument("database server migrate") == ["database", "server", "migrate"]
  {
    var ps := ["database", "server", "migrate"];
    assert Join(ps, ' ') == "database server migrate";
    SplitTagsArgumentWords(ps);
  }
}
