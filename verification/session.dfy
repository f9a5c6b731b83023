/**
 * The session state of the assistant page and its event handlers: the
 * globals `isAwake`, `isListening` and `lastSpokenText`, the command history,
 * and the requests the handlers make of the browser's speech recognition,
 * speech synthesis and window APIs.
 *
 * Each handler is a method of `Session`; the new state it leaves is given by
 * a function of the old state (`AfterSpeak`, `AfterCommand`, `AfterResult`,
 * ...), and the properties of those functions are proved below them.
 */
module Assistant {
  import opened JsString
  import opened Commands
  import opened WakeGate

  datatype Speaker = User | Jarvis

  /** One line of the command history (`addToHistory`). */
  datatype Entry = Entry(speaker: Speaker, text: string)

  /** What a handler asks of the browser, in the order it asks. */
  datatype Request =
    | CancelSpeech              // speechSynthesis.cancel()
    | Utter(text: string)       // speechSynthesis.speak(new SpeechSynthesisUtterance(text))
    | OpenTarget(target: Target) // window.open(url, '_blank')
    | StartRecognition          // recognition.start()
    | StopRecognition           // recognition.stop()

  /** The whole observable state of a session. */
  datatype SessionView = SessionView(
    synthesisAvailable: bool,
    isAwake: bool,
    isListening: bool,
    lastSpokenText: string,
    history: seq<Entry>,
    requests: seq<Request>)

  const MicGuidance: string := "Microphone access is not allowed. Please enable microphone permissions."

  /** The state a page starts in. */
  function Initial(synthesisAvailable: bool): SessionView {
    SessionView(synthesisAvailable, false, false, "", [], [])
  }

  /** `speak(text)`: nothing without synthesis; otherwise cancel, queue, and remember the text. */
  function AfterSpeak(v: SessionView, text: string): SessionView {
    if !v.synthesisAvailable then v
    else v.(requests := v.requests + [CancelSpeech, Utter(text)], lastSpokenText := text)
  }

  datatype CommandResult = CommandResult(view: SessionView, threw: bool)

  /** `handleCommand(command)`; `threw` when it ends in a TypeError. */
  function AfterCommand(v: SessionView, command: string, amb: Ambient): CommandResult {
    var logged := v.(history := v.history + [Entry(User, command)]);
    match Dispatch(command, amb)
    case Ignored => CommandResult(v, false)
    case Threw => CommandResult(logged, true)
    case Answered(intent, spoken, line, target) =>
      var v1 := AfterSpeak(logged, spoken);
      var v2 := if target.Some? then v1.(requests := v1.requests + [OpenTarget(target.value)]) else v1;
      var v3 := if intent == Sleep then v2.(isAwake := false) else v2;
      CommandResult(v3.(history := v3.history + [Entry(Jarvis, line)]), false)
  }

  function Stopped(v: SessionView): SessionView {
    v.(requests := v.requests + [StopRecognition])
  }

  /** `recognition.onresult` with the best transcript `raw`. */
  function AfterResult(v: SessionView, raw: string, amb: Ambient): SessionView {
    var g := Gate(Normalize(raw), v.isAwake);
    var woken := v.(isAwake := g.awake);
    match g.decision
    case Drop => Stopped(woken)
    case Greet => Stopped(AfterSpeak(woken, WakePrompt))
    case Forward(command) =>
      var r := AfterCommand(woken, command, amb);
      if r.threw then r.view else Stopped(r.view)
  }

  /** `AfterResult` when the gate drops the transcript. */
  lemma AfterResultDrop(v: SessionView, raw: string, amb: Ambient)
    requires Gate(Normalize(raw), v.isAwake).decision == Drop
    ensures AfterResult(v, raw, amb) == Stopped(v)
  {
    GateAwakeAfter(Normalize(raw), v.isAwake);
  }

  /** `AfterResult` when the transcript is the wake phrase alone. */
  lemma AfterResultGreet(v: SessionView, raw: string, amb: Ambient)
    requires Gate(Normalize(raw), v.isAwake).decision == Greet
    ensures AfterResult(v, raw, amb) == Stopped(AfterSpeak(v.(isAwake := true), WakePrompt))
  {
  }

  /** `AfterResult` when the gate forwards `command` to the dispatcher. */
  lemma AfterResultForward(v: SessionView, raw: string, amb: Ambient, command: string, awake: bool, after: SessionView, threw: bool)
    requires Gate(Normalize(raw), v.isAwake) == GateResult(Forward(command), awake)
    requires CommandResult(after, threw) == AfterCommand(v.(isAwake := awake), command, amb)
    ensures AfterResult(v, raw, amb) == if threw then after else Stopped(after)
  {
  }

  /** `recognition.onerror` with `event.error == error`. */
  function AfterError(v: SessionView, error: string): SessionView {
    var w := v.(isListening := false);
    if error == "not-allowed" then AfterSpeak(w, MicGuidance) else w
  }

  /** `toggleListening()`. */
  function AfterToggle(v: SessionView): SessionView {
    v.(requests := v.requests + [if v.isListening then StopRecognition else StartRecognition])
  }

  /** The `onend` callback of a spoken utterance, with the auto-listen checkbox state. */
  function AfterSpeechEnd(v: SessionView, autoListen: bool): SessionView {
    if autoListen && v.isAwake then v.(requests := v.requests + [StartRecognition]) else v
  }

  // ---------------------------------------------------------------------
  // What one handler does

  /**
   * With synthesis, speaking cancels what is playing before it queues the
   * new utterance, and remembers its text; without it, nothing changes.
   */
  lemma SpeakCancelsThenQueues(v: SessionView, text: string)
    ensures var w := AfterSpeak(v, text);
            && (v.synthesisAvailable ==> w.requests[|w.requests| - 2..] == [CancelSpeech, Utter(text)] && w.lastSpokenText == text)
            && (!v.synthesisAvailable ==> w == v)
            && w.history == v.history && w.isAwake == v.isAwake && w.isListening == v.isListening
  {
  }

  /** An empty command (what `if (!command) return;` rejects) changes nothing. */
  lemma EmptyCommandIgnored(v: SessionView, amb: Ambient)
    ensures AfterCommand(v, [], amb) == CommandResult(v, false)
  {
  }

  /**
   * A non-empty command always logs the USER line first. If the search
   * branch throws, that is all that is logged; otherwise exactly one
   * JARVIS line follows it, and it is the fallback exactly when no keyword
   * matched.
   */
  lemma CommandLogsExchange(v: SessionView, command: string, amb: Ambient)
    requires command != []
    ensures var r := AfterCommand(v, command, amb);
            var o := Dispatch(command, amb);
            && (r.threw <==> o.Threw?)
            && (r.threw ==> r.view.history == v.history + [Entry(User, command)])
            && (!r.threw ==> o.Answered? && r.view.history == v.history + [Entry(User, command), Entry(Jarvis, o.logged)])
            && (!r.threw ==> (o.logged == Fallback <==> Classify(Lower(command)) == Unknown))
  {
    DispatchShape(command, amb);
    var o := Dispatch(command, amb);
    if o.Answered? {
      FallbackOnlyWhenUnmatched(command, amb);
    }
  }

  /** Only the sleep command puts the assistant to sleep, and no command wakes it. */
  lemma OnlySleepClearsAwake(v: SessionView, command: string, amb: Ambient)
    ensures AfterCommand(v, command, amb).view.isAwake ==
            (v.isAwake && !(command != [] && Classify(Lower(command)) == Sleep))
  {
    DispatchShape(command, amb);
  }

  /**
   * When the command is answered and synthesis is available, the text last
   * spoken is the text logged, except for the sleep command, which speaks a
   * longer sentence than it logs.
   */
  lemma SpokenMatchesLogged(v: SessionView, command: string, amb: Ambient)
    requires v.synthesisAvailable && command != []
    requires !AfterCommand(v, command, amb).threw
    ensures var w := AfterCommand(v, command, amb).view;
            (w.lastSpokenText == w.history[|w.history| - 1].text <==> Classify(Lower(command)) != Sleep)
  {
    DispatchShape(command, amb);
    ReplyHeads("", "", "", Google, 0);
    assert SleepSpoken != SleepLogged by {
      assert |SleepSpoken| != |SleepLogged|;
    }
  }

  /** A page is opened exactly for the open and search commands that do not throw. */
  lemma OpensOnlyForOpenAndSearch(v: SessionView, command: string, amb: Ambient)
    ensures var r := AfterCommand(v, command, amb);
            (exists t :: OpenTarget(t) in r.view.requests[|v.requests|..]) <==>
              (!r.threw && command != [] && (Classify(Lower(command)).Open? || Classify(Lower(command)) == Search))
  {
    DispatchShape(command, amb);
    var r := AfterCommand(v, command, amb);
    var o := Dispatch(command, amb);
    var added := r.view.requests[|v.requests|..];
    if o.Answered? {
      var v1 := AfterSpeak(v.(history := v.history + [Entry(User, command)]), o.spoken);
      assert added == v1.requests[|v.requests|..] + (if o.target.Some? then [OpenTarget(o.target.value)] else []);
      if o.target.Some? {
        assert OpenTarget(o.target.value) in added;
      }
    } else {
      assert added == [];
    }
  }

  /**
   * A voice result always ends with `recognition.stop()`: the transcript is
   * lower-cased before it reaches the dispatcher, so the search branch
   * always finds "for" and never throws.
   */
  lemma ResultAlwaysStops(v: SessionView, raw: string, amb: Ambient)
    ensures var w := AfterResult(v, raw, amb);
            |w.requests| > |v.requests| && w.requests[..|v.requests|] == v.requests
            && w.requests[|w.requests| - 1] == StopRecognition
  {
    var t := Normalize(raw);
    NormalizedForm(raw);
    var g := Gate(t, v.isAwake);
    ForwardedIsLower(t, v.isAwake);
    match g.decision
    case Drop =>
    case Greet =>
    case Forward(c) =>
      LowerCaseNeverThrows(c, amb);
      var u := v.(isAwake := g.awake);
      var r := AfterCommand(u, c, amb);
      CommandKeepsRequests(u, c, amb);
      AfterResultForward(v, raw, amb, c, g.awake, r.view, r.threw);
      var w := Stopped(r.view);
      assert w.requests[..|v.requests|] == r.view.requests[..|v.requests|];
  }

  /** A command only appends requests, and it throws exactly when the dispatcher does. */
  lemma CommandKeepsRequests(v: SessionView, command: string, amb: Ambient)
    ensures var r := AfterCommand(v, command, amb);
            && (r.threw <==> Dispatch(command, amb).Threw?)
            && |v.requests| <= |r.view.requests| && r.view.requests[..|v.requests|] == v.requests
  {
    var r := AfterCommand(v, command, amb);
    assert r.view.requests[..|v.requests|] == v.requests;
  }

  /** Asleep, a transcript without the wake phrase only stops recognition. */
  lemma AsleepIgnoresSpeech(v: SessionView, raw: string, amb: Ambient)
    requires !v.isAwake && !Includes(Normalize(raw), WakePhrase)
    ensures AfterResult(v, raw, amb) == Stopped(v)
  {
  }

  /** The wake phrase alone wakes the assistant, which answers with the prompt. */
  lemma BarePhraseGreets(v: SessionView, raw: string, amb: Ambient)
    requires Includes(Normalize(raw), WakePhrase) && Remainder(Normalize(raw)) == []
    ensures AfterResult(v, raw, amb) == Stopped(AfterSpeak(v.(isAwake := true), WakePrompt))
  {
  }

  /**
   * After a voice result the assistant is awake exactly when it was awake or
   * heard the wake phrase, and the command forwarded was not the sleep command.
   */
  lemma ResultAwakeness(v: SessionView, raw: string, amb: Ambient)
    ensures var g := Gate(Normalize(raw), v.isAwake);
            AfterResult(v, raw, amb).isAwake ==
              ((v.isAwake || Includes(Normalize(raw), WakePhrase))
               && !(g.decision.Forward? && g.decision.command != [] && Classify(Lower(g.decision.command)) == Sleep))
  {
    var t := Normalize(raw);
    var g := Gate(t, v.isAwake);
    GateAwakeAfter(t, v.isAwake);
    match g.decision
    case Drop =>
    case Greet =>
    case Forward(c) =>
      OnlySleepClearsAwake(v.(isAwake := g.awake), c, amb);
      NormalizedForm(raw);
      ForwardedIsLower(t, v.isAwake);
      LowerCaseNeverThrows(c, amb);
      DispatchShape(c, amb);
  }

  /** Only the "not-allowed" error is spoken about; every error marks recognition as stopped. */
  lemma OnlyPermissionErrorSpeaks(v: SessionView, error: string)
    ensures var w := AfterError(v, error);
            && !w.isListening && w.isAwake == v.isAwake && w.history == v.history
            && (w.requests != v.requests <==> error == "not-allowed" && v.synthesisAvailable)
            && (w.requests != v.requests ==> w.lastSpokenText == MicGuidance)
  {
  }

  /** The talk button asks for the opposite of the current state and leaves the flag to the callbacks. */
  lemma ToggleAsksOpposite(v: SessionView)
    ensures var w := AfterToggle(v);
            && w.isListening == v.isListening
            && w.requests[..|v.requests|] == v.requests && |w.requests| == |v.requests| + 1
            && (w.requests[|v.requests|] == StopRecognition <==> v.isListening)
            && (w.requests[|v.requests|] == StartRecognition <==> !v.isListening)
  {
  }

  /** Recognition restarts after an utterance exactly when auto-listen is on and the assistant is awake. */
  lemma RestartOnlyWhenAwake(v: SessionView, autoListen: bool)
    ensures var w := AfterSpeechEnd(v, autoListen);
            && (w != v <==> autoListen && v.isAwake)
            && (w != v ==> w.requests == v.requests + [StartRecognition])
  {
    if autoListen && v.isAwake {
      assert |AfterSpeechEnd(v, autoListen).requests| != |v.requests|;
    }
  }

  // ---------------------------------------------------------------------
  // The page as an object

  class Session {
    const synthesisAvailable: bool
    var isAwake: bool
    var isListening: bool
    var lastSpokenText: string
    var history: seq<Entry>
    var requests: seq<Request>

    function View(): SessionView
      reads this
    {
      SessionView(synthesisAvailable, isAwake, isListening, lastSpokenText, history, requests)
    }

    constructor (synthesisAvailable: bool)
      ensures View() == Initial(synthesisAvailable)
    {
      this.synthesisAvailable := synthesisAvailable;
      isAwake := false;
      isListening := false;
      lastSpokenText := "";
      history := [];
      requests := [];
    }

    method Speak(text: string)
      modifies this
      ensures View() == AfterSpeak(old(View()), text)
    {
      if !synthesisAvailable {
        return;
      }
      requests := requests + [CancelSpeech];
      requests := requests + [Utter(text)];
      lastSpokenText := text;
    }

    method AddToHistory(speaker: Speaker, text: string)
      modifies this
      ensures View() == old(View()).(history := old(history) + [Entry(speaker, text)])
    {
      history := history + [Entry(speaker, text)];
    }

    method HandleCommand(command: string, amb: Ambient) returns (threw: bool)
      modifies this
      ensures CommandResult(View(), threw) == AfterCommand(old(View()), command, amb)
    {
      threw := false;
      if command == [] {
        return;
      }
      AddToHistory(User, command);
      var lower := Lower(command);
      match Classify(lower) {
        case TellTime =>
          Speak(TimeReply(amb.localTime));
          AddToHistory(Jarvis, TimeReply(amb.localTime));
        case TellDate =>
          Speak(DateReply(amb.localDate));
          AddToHistory(Jarvis, DateReply(amb.localDate));
        case Open(site) =>
          Speak(OpeningReply(site));
          requests := requests + [OpenTarget(Page(SiteUrl(site)))];
          AddToHistory(Jarvis, OpeningReply(site));
        case Search =>
          var query := SearchQuery(command);
          if query.None? {
            threw := true;
            return;
          }
          Speak(SearchReply(query.value));
          requests := requests + [OpenTarget(GoogleSearch(query.value))];
          AddToHistory(Jarvis, SearchReply(query.value));
        case TellJoke =>
          var joke := Jokes[amb.joke];
          Speak(joke);
          AddToHistory(Jarvis, joke);
        case Sleep =>
          Speak(SleepSpoken);
          isAwake := false;
          AddToHistory(Jarvis, SleepLogged);
        case Unknown =>
          Speak(Fallback);
          AddToHistory(Jarvis, Fallback);
      }
    }

    method OnResult(raw: string, amb: Ambient)
      modifies this
      ensures View() == AfterResult(old(View()), raw, amb)
    {
      ghost var before := View();
      var transcript := Normalize(raw);
      if Includes(transcript, WakePhrase) || isAwake {
        if Includes(transcript, WakePhrase) {
          isAwake := true;
          var command := Remainder(transcript);
          if command != [] {
            assert Gate(transcript, before.isAwake) == GateResult(Forward(command), true);
            var threw := HandleCommand(command, amb);
            AfterResultForward(before, raw, amb, command, true, View(), threw);
            if threw {
              return;
            }
          } else {
            AfterResultGreet(before, raw, amb);
            Speak(WakePrompt);
          }
        } else {
          assert Gate(transcript, before.isAwake) == GateResult(Forward(transcript), isAwake);
          var threw := HandleCommand(transcript, amb);
          AfterResultForward(before, raw, amb, transcript, before.isAwake, View(), threw);
          if threw {
            return;
          }
        }
      } else {
        AfterResultDrop(before, raw, amb);
      }
      requests := requests + [StopRecognition];
    }

    method OnStart()
      modifies this
      ensures View() == old(View()).(isListening := true)
    {
      isListening := true;
    }

    method OnEnd()
      modifies this
      ensures View() == old(View()).(isListening := false)
    {
      isListening := false;
    }

    method OnError(error: string)
      modifies this
      ensures View() == AfterError(old(View()), error)
    {
      isListening := false;
      if error == "not-allowed" {
        Speak(MicGuidance);
      }
    }

    method ToggleListening()
      modifies this
      ensures View() == AfterToggle(old(View()))
    {
      if isListening {
        requests := requests + [StopRecognition];
      } else {
        requests := requests + [StartRecognition];
      }
    }

    method OnSpeechEnd(autoListen: bool)
      modifies this
      ensures View() == AfterSpeechEnd(old(View()), autoListen)
    {
      if autoListen && isAwake {
        requests := requests + [StartRecognition];
      }
    }
  }
}
