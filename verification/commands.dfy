/**
 * The command dispatcher of `handleCommand`: an ordered chain of keyword
 * tests over the lower-cased command, the first match choosing the reply,
 * the history line and the page to open.
 */
module Commands {
  import opened JsString

  datatype Site = Google | YouTube | Facebook | Wikipedia

  /** The branches of the dispatcher, `Unknown` being the final `else`. */
  datatype Intent = TellTime | TellDate | Open(site: Site) | Search | TellJoke | Sleep | Unknown

  /** What the browser is asked to open (`window.open`). */
  datatype Target = Page(url: string) | GoogleSearch(query: string)

  /** `Math.floor(Math.random() * jokes.length)`: some index into the five jokes. */
  type JokeIndex = i: nat | i < 5

  /**
   * What the dispatcher reads from outside: the locale-formatted current
   * time and date, and the random joke pick.
   */
  datatype Ambient = Ambient(localTime: string, localDate: string, joke: JokeIndex)

  /**
   * The result of one `handleCommand` call.
   * Ignored: the command was empty and nothing happened.
   * Threw: the search branch read `split('for')[1]` of a command with no
   *        lower-case "for"; the USER line was already logged.
   * Answered: the reply spoken, the line logged and the page opened.
   */
  datatype Outcome =
    | Ignored
    | Threw
    | Answered(intent: Intent, spoken: string, logged: string, target: Option<Target>)

  // Dafny hands the verifier the characters of a string literal only when
  // the literal is at most 44 characters long, so the longer lines are
  // written as concatenations of shorter literals; the strings are the same.
  const Fallback: string := "I'm sorry, " + "I don't understand that command yet."
  const SleepSpoken: string := "Going to sleep. " + "Say 'Hey Jarvis' to wake me up."
  const SleepLogged: string := "Going to sleep"

  const Jokes: seq<string> := [
    "Why don't scientists trust atoms? " + "Because they make up everything!",
    "Why did the scarecrow win an award? " + "Because he was outstanding in his field!",
    "What do you call a fake noodle? " + "An impasta!",
    "Why couldn't the bicycle stand up " + "by itself? It was two tired!",
    "What's the best thing about Switzerland? " + "I don't know, but the flag is a big plus!"
  ]

  function TimeReply(time: string): string { "The current time is " + time }

  function DateReply(date: string): string { "Today's date is " + date }

  function SearchReply(query: string): string { "Searching for " + query }

  function OpeningReply(site: Site): string {
    match site
    case Google => "Opening Google"
    case YouTube => "Opening YouTube"
    case Facebook => "Opening Facebook"
    case Wikipedia => "Opening Wikipedia"
  }

  function SiteUrl(site: Site): string {
    match site
    case Google => "https://www.google.com"
    case YouTube => "https://www.youtube.com"
    case Facebook => "https://www.facebook.com"
    case Wikipedia => "https://www.wikipedia.org"
  }

  /** The chain of `lowerCommand.includes(...)` tests, in the order they are tried. */
  function Classify(lower: string): Intent {
    if Includes(lower, "time") then TellTime
    else if Includes(lower, "date") then TellDate
    else if Includes(lower, "google") then Open(Google)
    else if Includes(lower, "youtube") then Open(YouTube)
    else if Includes(lower, "facebook") then Open(Facebook)
    else if Includes(lower, "wikipedia") then Open(Wikipedia)
    else if Includes(lower, "search") && Includes(lower, "for") then Search
    else if Includes(lower, "joke") then TellJoke
    else if Includes(lower, "sleep") then Sleep
    else Unknown
  }

  // ---------------------------------------------------------------------
  // The same dispatcher as an explicit priority table

  /** The keywords that must all occur for a rule to fire. */
  function Keywords(intent: Intent): seq<string> {
    match intent
    case TellTime => ["time"]
    case TellDate => ["date"]
    case Open(site) =>
      (match site
       case Google => ["google"]
       case YouTube => ["youtube"]
       case Facebook => ["facebook"]
       case Wikipedia => ["wikipedia"])
    case Search => ["search", "for"]
    case TellJoke => ["joke"]
    case Sleep => ["sleep"]
    case Unknown => []
  }

  /** The rules in priority order. */
  const Rules: seq<Intent> :=
    [TellTime, TellDate, Open(Google), Open(YouTube), Open(Facebook), Open(Wikipedia), Search, TellJoke, Sleep]

  predicate Fires(intent: Intent, lower: string) {
    forall k :: 0 <= k < |Keywords(intent)| ==> Includes(lower, Keywords(intent)[k])
  }

  /** The first rule of `rules` at index `k` or later that fires, or `Unknown`. */
  function FirstMatch(rules: seq<Intent>, k: nat, lower: string): Intent
    decreases |rules| - k
  {
    if k >= |rules| then Unknown
    else if Fires(rules[k], lower) then rules[k]
    else FirstMatch(rules, k + 1, lower)
  }

  /** A rule with a single keyword fires exactly when that keyword occurs. */
  lemma FiresSingle(intent: Intent, lower: string)
    requires |Keywords(intent)| == 1
    ensures Fires(intent, lower) <==> Includes(lower, Keywords(intent)[0])
  {
  }

  /** The `if`/`else if` chain is exactly "first rule of the table that fires". */
  lemma ClassifyIsFirstMatch(lower: string)
    ensures Classify(lower) == FirstMatch(Rules, 0, lower)
  {
    FiresSingle(TellTime, lower);
    FiresSingle(TellDate, lower);
    FiresSingle(Open(Google), lower);
    FiresSingle(Open(YouTube), lower);
    FiresSingle(Open(Facebook), lower);
    FiresSingle(Open(Wikipedia), lower);
    FiresSingle(TellJoke, lower);
    FiresSingle(Sleep, lower);
    assert Keywords(Search)[0] == "search" && Keywords(Search)[1] == "for";
    assert FirstMatch(Rules, 9, lower) == Unknown;
    assert FirstMatch(Rules, 8, lower) == if Includes(lower, "sleep") then Sleep else Unknown;
    assert FirstMatch(Rules, 7, lower) == if Includes(lower, "joke") then TellJoke else FirstMatch(Rules, 8, lower);
    assert FirstMatch(Rules, 6, lower) ==
      if Includes(lower, "search") && Includes(lower, "for") then Search else FirstMatch(Rules, 7, lower);
    assert FirstMatch(Rules, 5, lower) == if Includes(lower, "wikipedia") then Open(Wikipedia) else FirstMatch(Rules, 6, lower);
    assert FirstMatch(Rules, 4, lower) == if Includes(lower, "facebook") then Open(Facebook) else FirstMatch(Rules, 5, lower);
    assert FirstMatch(Rules, 3, lower) == if Includes(lower, "youtube") then Open(YouTube) else FirstMatch(Rules, 4, lower);
    assert FirstMatch(Rules, 2, lower) == if Includes(lower, "google") then Open(Google) else FirstMatch(Rules, 3, lower);
    assert FirstMatch(Rules, 1, lower) == if Includes(lower, "date") then TellDate else FirstMatch(Rules, 2, lower);
  }

  /** The rule FirstMatch picks fires, and no rule between `k` and it does. */
  lemma {:induction false} FirstMatchIsFirst(rules: seq<Intent>, k: nat, lower: string)
    requires Unknown !in rules
    ensures var m := FirstMatch(rules, k, lower);
      (m == Unknown <==> forall j :: k <= j < |rules| ==> !Fires(rules[j], lower))
      && (m != Unknown ==> exists i :: k <= i < |rules| && rules[i] == m && Fires(m, lower)
                                         && forall j :: k <= j < i ==> !Fires(rules[j], lower))
    decreases |rules| - k
  {
    if k < |rules| {
      if Fires(rules[k], lower) {
        assert rules[k] in rules;
      } else {
        FirstMatchIsFirst(rules, k + 1, lower);
        var m := FirstMatch(rules, k, lower);
        if m != Unknown {
          var i :| k + 1 <= i < |rules| && rules[i] == m && Fires(m, lower)
                   && forall j :: k + 1 <= j < i ==> !Fires(rules[j], lower);
          assert forall j :: k <= j < i ==> !Fires(rules[j], lower);
        }
      }
    }
  }

  /**
   * The dispatcher gives the fallback exactly when no rule of the table
   * fires, and otherwise picks a rule that fires with no earlier rule firing.
   */
  lemma ClassifyPriority(lower: string)
    ensures Classify(lower) == Unknown <==> forall k :: 0 <= k < |Rules| ==> !Fires(Rules[k], lower)
    ensures Classify(lower) != Unknown ==>
      exists k :: 0 <= k < |Rules| && Rules[k] == Classify(lower) && Fires(Classify(lower), lower)
                  && forall j :: 0 <= j < k ==> !Fires(Rules[j], lower)
  {
    ClassifyIsFirstMatch(lower);
    FirstMatchIsFirst(Rules, 0, lower);
  }

  // ---------------------------------------------------------------------
  // The search branch

  /** `command.split('for')[1].trim()`, `None` where `[1]` is undefined and the call throws. */
  function SearchQuery(command: string): (q: Option<string>)
    ensures q.Some? <==> Includes(command, "for")
    ensures q.Some? ==> Trimmed(q.value)
  {
    var parts := Split(command, "for");
    if |parts| >= 2 then TrimShape(parts[1]); Some(Trim(parts[1])) else None
  }

  /**
   * The query is the text between the first and the second "for" (or the
   * end of the command), trimmed; it never contains "for" itself.
   */
  lemma SearchQueryBetweenFors(command: string)
    requires Includes(command, "for")
    ensures var i := IndexOf(command, "for").value;
            var rest := command[i + 3..];
            var piece := match IndexOf(rest, "for") case None => rest case Some(j) => rest[..j];
            SearchQuery(command) == Some(Trim(piece)) && !Includes(piece, "for")
  {
    SplitSecond(command, "for");
    SplitPiecesLackSeparator(command, "for");
  }

  /** The dispatcher as one function of the command and the ambient values. */
  function Dispatch(command: string, amb: Ambient): Outcome {
    if command == [] then Ignored
    else
      var intent := Classify(Lower(command));
      match intent
      case TellTime => Answered(intent, TimeReply(amb.localTime), TimeReply(amb.localTime), None)
      case TellDate => Answered(intent, DateReply(amb.localDate), DateReply(amb.localDate), None)
      case Open(site) => Answered(intent, OpeningReply(site), OpeningReply(site), Some(Page(SiteUrl(site))))
      case Search =>
        (match SearchQuery(command)
         case None => Threw
         case Some(q) => Answered(intent, SearchReply(q), SearchReply(q), Some(GoogleSearch(q))))
      case TellJoke => Answered(intent, Jokes[amb.joke], Jokes[amb.joke], None)
      case Sleep => Answered(intent, SleepSpoken, SleepLogged, None)
      case Unknown => Answered(intent, Fallback, Fallback, None)
  }

  /**
   * What the dispatcher does: an empty command is ignored; a search command
   * without "for" throws; everything else is answered according to the
   * first matching rule, with a page opened exactly for the open and
   * search intents, and with the same line spoken and logged except when
   * going to sleep.
   */
  lemma DispatchShape(command: string, amb: Ambient)
    ensures var o := Dispatch(command, amb);
            && (o.Ignored? <==> command == [])
            && (o.Threw? <==> command != [] && Classify(Lower(command)) == Search && !Includes(command, "for"))
            && (o.Answered? ==> o.intent == Classify(Lower(command)))
            && (o.Answered? && o.intent != Sleep ==> o.spoken == o.logged)
            && (o.Answered? ==> (o.target.Some? <==> o.intent.Open? || o.intent == Search))
  {
  }

  /** Every reply other than the fallback starts with a letter other than the fallback's 'I'. */
  lemma ReplyHeads(time: string, date: string, query: string, site: Site, joke: JokeIndex)
    ensures Fallback[0] == 'I'
    ensures TimeReply(time)[0] == 'T' && DateReply(date)[0] == 'T' && SearchReply(query)[0] == 'S'
    ensures OpeningReply(site)[0] == 'O' && Jokes[joke][0] == 'W'
    ensures SleepSpoken[0] == 'G' && SleepLogged[0] == 'G'
  {
    assert Jokes[0][0] == 'W' && Jokes[1][0] == 'W' && Jokes[2][0] == 'W' && Jokes[3][0] == 'W' && Jokes[4][0] == 'W';
  }

  /** The fallback line is spoken and logged exactly when no keyword matched. */
  lemma FallbackOnlyWhenUnmatched(command: string, amb: Ambient)
    requires Dispatch(command, amb).Answered?
    ensures Dispatch(command, amb).spoken == Fallback <==> Classify(Lower(command)) == Unknown
    ensures Dispatch(command, amb).logged == Fallback <==> Classify(Lower(command)) == Unknown
  {
    var o := Dispatch(command, amb);
    var q := SearchQuery(command);
    var site := if o.intent.Open? then o.intent.site else Google;
    ReplyHeads(amb.localTime, amb.localDate, if q.Some? then q.value else "", site, amb.joke);
  }

  /** Only a command with an upper-case "for" (possible only for typed input) can make the search branch throw. */
  lemma LowerCaseNeverThrows(command: string, amb: Ambient)
    requires IsLower(command)
    ensures !Dispatch(command, amb).Threw?
  {
    LowerOfLower(command);
  }
}
