/**
 * Concrete conversations with the assistant, worked out from the model:
 * which branch a phrase lands in, what the search query becomes, and what
 * a voice result does to an asleep or awake session.
 */
module Scenarios {
  import opened JsString
  import opened Commands
  import opened WakeGate
  import opened Assistant

  /** A pattern with a character that `s` lacks does not occur in `s`. */
  lemma LacksChar(s: string, pat: string, i: nat)
    requires i < |pat| && pat[i] !in s
    ensures !Includes(s, pat)
  {
  }

  /** The same for several patterns at once, `at[k]` naming the missing character of `pats[k]`. */
  lemma LacksAll(s: string, pats: seq<string>, at: seq<nat>)
    requires |at| == |pats|
    requires forall k :: 0 <= k < |pats| ==> at[k] < |pats[k]| && pats[k][at[k]] !in s
    ensures forall k :: 0 <= k < |pats| ==> !Includes(s, pats[k])
  {
    forall k | 0 <= k < |pats|
      ensures !Includes(s, pats[k])
    {
      LacksChar(s, pats[k], at[k]);
    }
  }

  /** A pattern found at some index is included. */
  lemma OccursHere(s: string, pat: string, i: nat)
    requires OccursAt(s, pat, i)
    ensures Includes(s, pat)
  {
    IncludesIffOccurs(s, pat);
  }

  /** An occurrence before which the pattern's first character never appears is the first one. */
  lemma FirstOccurrence(s: string, pat: string, i: nat)
    requires |pat| > 0 && OccursAt(s, pat, i)
    requires forall j :: 0 <= j < i ==> s[j] != pat[0]
    ensures IndexOf(s, pat) == Some(i)
  {
    IndexOfFirst(s, pat);
  }

  /** "search for google" names Google before anything else the rules look for. */
  lemma GoogleCommandOpens(s: string)
    requires s == "search for google"
    ensures Classify(s) == Open(Google)
  {
    LacksChar(s, "time", 1);
    LacksChar(s, "date", 0);
    assert s[11..17] == "google";
    OccursHere(s, "google", 11);
  }

  /** The first keyword wins: "search for google" opens Google rather than searching. */
  lemma SearchForGoogleOpensGoogle(command: string, amb: Ambient)
    requires Lower(command) == "search for google"
    ensures Dispatch(command, amb) == Answered(Open(Google), "Opening Google", "Opening Google", Some(Page("https://www.google.com")))
  {
    GoogleCommandOpens(Lower(command));
    assert |command| == 17;
  }

  /** The "time" check comes before the "date" check, so a phrase with both tells the time. */
  lemma TimeBeatsDate(command: string, amb: Ambient)
    requires Lower(command) == "what time is the date"
    ensures Dispatch(command, amb) == Answered(TellTime, TimeReply(amb.localTime), TimeReply(amb.localTime), None)
  {
    assert Lower(command)[5..9] == "time";
    OccursHere(Lower(command), "time", 5);
    assert |command| == 21;
  }

  /** In "search for information" the first "for" is at 7 and the next one, inside "information", 6 characters on. */
  lemma InformationFors(c: string)
    requires c == "search for information"
    ensures IndexOf(c, "for") == Some(7)
    ensures IndexOf(c[10..], "for") == Some(3)
    ensures c[10..][..3] == " in"
  {
    assert c[7..10] == "for";
    FirstOccurrence(c, "for", 7);
    var rest := c[10..];
    assert rest == " information";
    assert rest[3..6] == "for";
    FirstOccurrence(rest, "for", 3);
  }

  /** The query ends at the next "for", even inside a word: "search for information" searches for "in". */
  lemma QueryStopsAtNextFor(c: string)
    requires c == "search for information"
    ensures SearchQuery(c) == Some("in")
  {
    InformationFors(c);
    assert c[7..10] == "for";
    OccursHere(c, "for", 7);
    SearchQueryBetweenFors(c);
    TrimBetween(" in", 1, 3);
    assert " in"[1..3] == "in";
  }

  /** "search for cats" mentions no time, date or site. */
  lemma CatsNamesNoSite(s: string)
    requires s == "search for cats"
    ensures !Includes(s, "time") && !Includes(s, "date") && !Includes(s, "google")
    ensures !Includes(s, "youtube") && !Includes(s, "facebook") && !Includes(s, "wikipedia")
  {
    var pats := ["time", "date", "google", "youtube", "facebook", "wikipedia"];
    LacksAll(s, pats, [1, 0, 0, 0, 7, 0]);
    assert pats[0] == "time" && pats[1] == "date" && pats[2] == "google";
    assert pats[3] == "youtube" && pats[4] == "facebook" && pats[5] == "wikipedia";
  }

  /** "search for cats" names no time, date or site, and has both "search" and "for". */
  lemma CatsCommandSearches(s: string)
    requires s == "search for cats"
    ensures Classify(s) == Search
  {
    CatsNamesNoSite(s);
    assert s[0..6] == "search";
    OccursHere(s, "search", 0);
    assert s[7..10] == "for";
    OccursHere(s, "for", 7);
  }

  /** `toLowerCase` turns "Search FOR cats" into "search for cats". */
  lemma CatsLowered(command: string)
    requires command == "Search FOR cats"
    ensures Lower(command) == "search for cats"
  {
    LowerPointwise(command);
    var t := "search for cats";
    assert |Lower(command)| == |t|;
    forall i | 0 <= i < |t|
      ensures Lower(command)[i] == t[i]
    {
      assert Lower(command)[i] == LowerChar(command[i]);
    }
  }

  /** Typed with an upper-case "FOR", a search has no piece after a lower-case "for" and throws. */
  lemma TypedUpperCaseForThrows(command: string, amb: Ambient)
    requires command == "Search FOR cats"
    ensures Dispatch(command, amb) == Threw
  {
    CatsLowered(command);
    CatsCommandSearches(Lower(command));
    LacksChar(command, "for", 0);
    DispatchShape(command, amb);
  }

  /** Asleep, a question without the wake phrase is dropped: recognition is stopped and nothing else happens. */
  lemma AsleepQuestionDropped(v: SessionView, raw: string, amb: Ambient)
    requires !v.isAwake && Normalize(raw) == "what time is it"
    ensures AfterResult(v, raw, amb) == Stopped(v)
  {
    LacksChar(Normalize(raw), WakePhrase, 2);
    AsleepIgnoresSpeech(v, raw, amb);
  }

  /** Cutting the wake phrase out of "hey jarvis" leaves nothing. */
  lemma BarePhraseRemainder(t: string)
    requires t == "hey jarvis"
    ensures Includes(t, WakePhrase) && Remainder(t) == []
  {
    assert t[0..10] == WakePhrase;
    OccursHere(t, WakePhrase, 0);
    assert IndexOf(t, WakePhrase) == Some(0);
    assert ReplaceFirst(t, WakePhrase, "") == "";
  }

  /** "Hey Jarvis" alone wakes the assistant and it answers with the prompt. */
  lemma HeyJarvisGreets(v: SessionView, raw: string, amb: Ambient)
    requires Normalize(raw) == "hey jarvis"
    ensures var w := AfterResult(v, raw, amb);
            w.isAwake && w.history == v.history
            && (v.synthesisAvailable ==> w.requests == v.requests + [CancelSpeech, Utter(WakePrompt), StopRecognition])
  {
    BarePhraseRemainder(Normalize(raw));
    BarePhraseGreets(v, raw, amb);
  }

  /** The gate cuts the wake phrase out of "hey jarvis sleep", wakes the assistant and forwards "sleep". */
  lemma SleepForwarded(t: string, awake: bool)
    requires t == "hey jarvis sleep"
    ensures Gate(t, awake) == GateResult(Forward("sleep"), true)
  {
    SleepRemainder(t);
  }

  /** Cutting the wake phrase out of "hey jarvis sleep" leaves "sleep". */
  lemma SleepRemainder(t: string)
    requires t == "hey jarvis sleep"
    ensures Includes(t, WakePhrase) && Remainder(t) == "sleep"
  {
    assert t[0..10] == WakePhrase;
    OccursHere(t, WakePhrase, 0);
    assert IndexOf(t, WakePhrase) == Some(0);
    assert ReplaceFirst(t, WakePhrase, "") == " sleep";
    TrimBetween(" sleep", 1, 6);
    assert " sleep"[1..6] == "sleep";
  }

  /** "sleep" is already lower case, matches no earlier rule and is the sleep command. */
  lemma SleepCommandSleeps(c: string)
    requires c == "sleep"
    ensures Lower(c) == c && Classify(c) == Sleep
  {
    assert IsLower(c);
    LowerOfLower(c);
    SleepMatchesSleep(c);
  }

  lemma SleepMatchesSleep(c: string)
    requires c == "sleep"
    ensures Classify(c) == Sleep
  {
    var pats := ["time", "date", "google", "youtube", "facebook", "wikipedia", "search", "joke"];
    LacksAll(c, pats, [0, 0, 0, 0, 0, 0, 3, 0]);
    assert pats[0] == "time" && pats[1] == "date" && pats[2] == "google" && pats[3] == "youtube";
    assert pats[4] == "facebook" && pats[5] == "wikipedia" && pats[6] == "search" && pats[7] == "joke";
    assert c[0..5] == "sleep";
    OccursHere(c, "sleep", 0);
  }

  /** "Hey Jarvis sleep" wakes the assistant and puts it straight back to sleep. */
  lemma HeyJarvisSleep(v: SessionView, raw: string, amb: Ambient)
    requires Normalize(raw) == "hey jarvis sleep"
    ensures var w := AfterResult(v, raw, amb);
            && !w.isAwake
            && w.history == v.history + [Entry(User, "sleep"), Entry(Jarvis, SleepLogged)]
            && w.requests == AfterCommand(v.(isAwake := true), "sleep", amb).view.requests + [StopRecognition]
  {
    var c := "sleep";
    SleepForwarded(Normalize(raw), v.isAwake);
    SleepCommandSleeps(c);
    var u := v.(isAwake := true);
    CommandLogsExchange(u, c, amb);
    OnlySleepClearsAwake(u, c, amb);
    DispatchShape(c, amb);
  }
}
