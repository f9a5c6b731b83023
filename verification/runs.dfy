/**
 * The page as a sequence of events: every callback the browser can invoke
 * and every input the user can give, applied one after another to the
 * session state. The invariants proved here hold after any sequence.
 */
module Runs {
  import opened JsString
  import opened Commands
  import opened WakeGate
  import opened Assistant

  /** One callback run to completion. */
  datatype Event =
    | Heard(raw: string, amb: Ambient)        // recognition.onresult with the best transcript
    | Typed(text: string, amb: Ambient)       // Enter pressed in the command box
    | RecognitionStarted                      // recognition.onstart
    | RecognitionEnded                        // recognition.onend
    | RecognitionFailed(error: string)        // recognition.onerror
    | TalkClicked                             // the talk button
    | UtteranceEnded(autoListen: bool)        // an utterance's onend, with the checkbox state

  /** The state after one event. A typed command that throws leaves what it had logged. */
  function Step(v: SessionView, e: Event): SessionView {
    match e
    case Heard(raw, amb) => AfterResult(v, raw, amb)
    case Typed(text, amb) => AfterCommand(v, text, amb).view
    case RecognitionStarted => v.(isListening := true)
    case RecognitionEnded => v.(isListening := false)
    case RecognitionFailed(error) => AfterError(v, error)
    case TalkClicked => AfterToggle(v)
    case UtteranceEnded(autoListen) => AfterSpeechEnd(v, autoListen)
  }

  /** The state after a sequence of events, the first applied first. */
  function Run(v: SessionView, es: seq<Event>): SessionView
    decreases |es|
  {
    if es == [] then v else Run(Step(v, es[0]), es[1..])
  }

  // ---------------------------------------------------------------------
  // isListening follows the recognition callbacks

  /** The listening flag as the last of onstart, onend and onerror left it. */
  function ListeningAfter(listening: bool, es: seq<Event>): bool
    decreases |es|
  {
    if es == [] then listening
    else
      var next := match es[0]
        case RecognitionStarted => true
        case RecognitionEnded => false
        case RecognitionFailed(_) => false
        case _ => listening;
      ListeningAfter(next, es[1..])
  }

  /** Only the recognition callbacks set `isListening`; the talk button never does. */
  lemma {:induction false} ListeningFollowsCallbacks(v: SessionView, es: seq<Event>)
    ensures Run(v, es).isListening == ListeningAfter(v.isListening, es)
    decreases |es|
  {
    if es != [] {
      var w := Step(v, es[0]);
      match es[0] {
        case Heard(raw, amb) => ResultListening(v, raw, amb);
        case Typed(text, amb) => CommandListening(v, text, amb);
        case _ =>
      }
      ListeningFollowsCallbacks(w, es[1..]);
    }
  }

  lemma CommandListening(v: SessionView, command: string, amb: Ambient)
    ensures AfterCommand(v, command, amb).view.isListening == v.isListening
  {
  }

  lemma ResultListening(v: SessionView, raw: string, amb: Ambient)
    ensures AfterResult(v, raw, amb).isListening == v.isListening
  {
    var g := Gate(Normalize(raw), v.isAwake);
    match g.decision
    case Drop =>
    case Greet =>
    case Forward(c) =>
      CommandListening(v.(isAwake := g.awake), c, amb);
  }

  // ---------------------------------------------------------------------
  // The history and the requests only grow

  /** `w` is `v` with possibly more history lines and more requests appended. */
  predicate Extends(v: SessionView, w: SessionView) {
    && w.synthesisAvailable == v.synthesisAvailable
    && |v.history| <= |w.history| && w.history[..|v.history|] == v.history
    && |v.requests| <= |w.requests| && w.requests[..|v.requests|] == v.requests
  }

  lemma ExtendsTransitive(u: SessionView, v: SessionView, w: SessionView)
    requires Extends(u, v) && Extends(v, w)
    ensures Extends(u, w)
  {
    assert w.history[..|u.history|] == w.history[..|v.history|][..|u.history|];
    assert w.requests[..|u.requests|] == w.requests[..|v.requests|][..|u.requests|];
  }

  lemma SpeakExtends(v: SessionView, text: string)
    ensures Extends(v, AfterSpeak(v, text))
  {
  }

  lemma CommandExtends(v: SessionView, command: string, amb: Ambient)
    ensures Extends(v, AfterCommand(v, command, amb).view)
  {
    match Dispatch(command, amb)
    case Ignored =>
    case Threw =>
    case Answered(intent, spoken, line, target) =>
      var logged := v.(history := v.history + [Entry(User, command)]);
      SpeakExtends(logged, spoken);
      var w := AfterCommand(v, command, amb).view;
      assert w.history[..|v.history|] == v.history;
      assert w.requests[..|v.requests|] == v.requests;
  }

  lemma StepExtends(v: SessionView, e: Event)
    ensures Extends(v, Step(v, e))
  {
    match e
    case Heard(raw, amb) =>
      var g := Gate(Normalize(raw), v.isAwake);
      var woken := v.(isAwake := g.awake);
      match g.decision {
        case Drop =>
        case Greet =>
          SpeakExtends(woken, WakePrompt);
          ExtendsTransitive(v, AfterSpeak(woken, WakePrompt), Step(v, e));
        case Forward(c) =>
          CommandExtends(woken, c, amb);
          ExtendsTransitive(v, AfterCommand(woken, c, amb).view, Step(v, e));
      }
    case Typed(text, amb) => CommandExtends(v, text, amb);
    case RecognitionFailed(error) => SpeakExtends(v.(isListening := false), MicGuidance);
    case _ =>
  }

  /** Nothing is ever taken back: the history and the requests made only grow, and synthesis support never changes. */
  lemma {:induction false} RunExtends(v: SessionView, es: seq<Event>)
    ensures Extends(v, Run(v, es))
    decreases |es|
  {
    if es != [] {
      StepExtends(v, es[0]);
      RunExtends(Step(v, es[0]), es[1..]);
      ExtendsTransitive(v, Step(v, es[0]), Run(v, es));
    }
  }

  // ---------------------------------------------------------------------
  // The history reads as questions and answers

  /** Every USER line is non-empty, and every JARVIS line directly follows the USER line it answers. */
  predicate WellFormedLog(h: seq<Entry>) {
    && (forall i :: 0 <= i < |h| && h[i].speaker == User ==> h[i].text != [])
    && (|h| > 0 ==> h[0].speaker == User)
    && (forall i :: 0 < i < |h| && h[i].speaker == Jarvis ==> h[i - 1].speaker == User)
  }

  /** Appending a non-empty USER line and at most one JARVIS line keeps the log well formed. */
  lemma LogAppendExchange(h: seq<Entry>, command: string, answer: seq<Entry>)
    requires WellFormedLog(h) && command != []
    requires answer == [] || (|answer| == 1 && answer[0].speaker == Jarvis)
    ensures WellFormedLog(h + [Entry(User, command)] + answer)
  {
    var h' := h + [Entry(User, command)] + answer;
    assert h'[|h|] == Entry(User, command);
    forall i | 0 <= i < |h'| && h'[i].speaker == User
      ensures h'[i].text != []
    {
      if i < |h| {
        assert h'[i] == h[i];
      }
    }
    forall i | 0 < i < |h'| && h'[i].speaker == Jarvis
      ensures h'[i - 1].speaker == User
    {
      if i < |h| {
        assert h'[i] == h[i] && h'[i - 1] == h[i - 1];
      }
    }
    if |h| > 0 {
      assert h'[0] == h[0];
    }
  }

  lemma CommandKeepsLog(v: SessionView, command: string, amb: Ambient)
    requires WellFormedLog(v.history)
    ensures WellFormedLog(AfterCommand(v, command, amb).view.history)
  {
    if command != [] {
      CommandLogsExchange(v, command, amb);
      var r := AfterCommand(v, command, amb);
      if r.threw {
        LogAppendExchange(v.history, command, []);
        assert r.view.history == v.history + [Entry(User, command)] + [];
      } else {
        var answer := [Entry(Jarvis, Dispatch(command, amb).logged)];
        LogAppendExchange(v.history, command, answer);
        assert r.view.history == v.history + [Entry(User, command)] + answer;
      }
    }
  }

  lemma StepKeepsLog(v: SessionView, e: Event)
    requires WellFormedLog(v.history)
    ensures WellFormedLog(Step(v, e).history)
  {
    match e
    case Heard(raw, amb) =>
      var g := Gate(Normalize(raw), v.isAwake);
      match g.decision {
        case Drop =>
        case Greet =>
        case Forward(c) => CommandKeepsLog(v.(isAwake := g.awake), c, amb);
      }
    case Typed(text, amb) => CommandKeepsLog(v, text, amb);
    case _ =>
  }

  /** After any sequence of events the history still reads as USER lines, each followed by at most one answer. */
  lemma {:induction false} RunKeepsLog(v: SessionView, es: seq<Event>)
    requires WellFormedLog(v.history)
    ensures WellFormedLog(Run(v, es).history)
    decreases |es|
  {
    if es != [] {
      StepKeepsLog(v, es[0]);
      RunKeepsLog(Step(v, es[0]), es[1..]);
    }
  }

  // ---------------------------------------------------------------------
  // Only the wake phrase wakes the assistant

  /** No voice result in `es` contains the wake phrase once normalized. */
  predicate NoWakePhraseHeard(es: seq<Event>) {
    forall i :: 0 <= i < |es| && es[i].Heard? ==> !Includes(Normalize(es[i].raw), WakePhrase)
  }

  lemma StepStaysAsleep(v: SessionView, e: Event)
    requires !v.isAwake
    requires e.Heard? ==> !Includes(Normalize(e.raw), WakePhrase)
    ensures !Step(v, e).isAwake
  {
    match e
    case Heard(raw, amb) => AsleepIgnoresSpeech(v, raw, amb);
    case Typed(text, amb) => OnlySleepClearsAwake(v, text, amb);
    case _ =>
  }

  /** Asleep, the assistant stays asleep until a voice result carries the wake phrase; typed commands never wake it. */
  lemma {:induction false} AsleepUntilWakePhrase(v: SessionView, es: seq<Event>)
    requires !v.isAwake && NoWakePhraseHeard(es)
    ensures !Run(v, es).isAwake
    decreases |es|
  {
    if es != [] {
      StepStaysAsleep(v, es[0]);
      assert NoWakePhraseHeard(es[1..]) by {
        forall i | 0 <= i < |es[1..]| && es[1..][i].Heard?
          ensures !Includes(Normalize(es[1..][i].raw), WakePhrase)
        {
          assert es[1..][i] == es[i + 1];
        }
      }
      AsleepUntilWakePhrase(Step(v, es[0]), es[1..]);
    }
  }

  // ---------------------------------------------------------------------
  // lastSpokenText is written but never read

  /** The state with the remembered text blanked out. */
  function Forget(v: SessionView): SessionView {
    v.(lastSpokenText := "")
  }

  lemma SpeakIgnoresLastSpoken(v: SessionView, x: string, text: string)
    ensures Forget(AfterSpeak(v.(lastSpokenText := x), text)) == Forget(AfterSpeak(v, text))
  {
  }

  lemma CommandIgnoresLastSpoken(v: SessionView, x: string, command: string, amb: Ambient)
    ensures var r, r' := AfterCommand(v.(lastSpokenText := x), command, amb), AfterCommand(v, command, amb);
            r.threw == r'.threw && Forget(r.view) == Forget(r'.view)
  {
    match Dispatch(command, amb)
    case Ignored =>
    case Threw =>
    case Answered(intent, spoken, line, target) =>
      SpeakIgnoresLastSpoken(v.(history := v.history + [Entry(User, command)]), x, spoken);
  }

  lemma StepIgnoresLastSpoken(v: SessionView, x: string, e: Event)
    ensures Forget(Step(v.(lastSpokenText := x), e)) == Forget(Step(v, e))
  {
    var u := v.(lastSpokenText := x);
    match e
    case Heard(raw, amb) =>
      var g := Gate(Normalize(raw), v.isAwake);
      match g.decision {
        case Drop =>
        case Greet =>
          SpeakIgnoresLastSpoken(v.(isAwake := g.awake), x, WakePrompt);
        case Forward(c) =>
          assert u.(isAwake := g.awake) == v.(isAwake := g.awake).(lastSpokenText := x);
          CommandIgnoresLastSpoken(v.(isAwake := g.awake), x, c, amb);
      }
    case Typed(text, amb) => CommandIgnoresLastSpoken(v, x, text, amb);
    case RecognitionFailed(error) =>
      assert u.(isListening := false) == v.(isListening := false).(lastSpokenText := x);
      SpeakIgnoresLastSpoken(v.(isListening := false), x, MicGuidance);
    case _ =>
  }

  /**
   * `lastSpokenText` is never read: two sessions that differ only in it
   * make the same requests and log the same history whatever happens next.
   */
  lemma {:induction false} LastSpokenNeverRead(v: SessionView, x: string, es: seq<Event>)
    ensures Forget(Run(v.(lastSpokenText := x), es)) == Forget(Run(v, es))
    decreases |es|
  {
    if es != [] {
      var w := Step(v, es[0]);
      var w' := Step(v.(lastSpokenText := x), es[0]);
      StepIgnoresLastSpoken(v, x, es[0]);
      assert w' == w.(lastSpokenText := w'.lastSpokenText);
      LastSpokenNeverRead(w, w'.lastSpokenText, es[1..]);
    }
  }

  // ---------------------------------------------------------------------
  // Every utterance is preceded by a cancel, and lastSpokenText is the last one

  /** The text of the last `Utter` request, if any. */
  function LastUtterance(rs: seq<Request>): Option<string>
    decreases |rs|
  {
    if rs == [] then None
    else match rs[|rs| - 1]
      case Utter(text) => Some(text)
      case _ => LastUtterance(rs[..|rs| - 1])
  }

  /** `rs` asks for no utterance. */
  predicate Quiet(rs: seq<Request>) {
    forall i :: 0 <= i < |rs| ==> !rs[i].Utter?
  }

  /**
   * Each utterance is queued right after a cancel; the remembered text is
   * that of the last utterance (empty before the first); and a browser
   * without synthesis never receives an utterance.
   */
  predicate SpeechConsistent(v: SessionView) {
    && (|v.requests| > 0 ==> !v.requests[0].Utter?)
    && (forall i :: 0 < i < |v.requests| && v.requests[i].Utter? ==> v.requests[i - 1] == CancelSpeech)
    && v.lastSpokenText == (match LastUtterance(v.requests) case None => "" case Some(t) => t)
    && (!v.synthesisAvailable ==> Quiet(v.requests))
  }

  lemma InitialSpeechConsistent(synthesisAvailable: bool)
    ensures SpeechConsistent(Initial(synthesisAvailable))
  {
  }

  lemma {:induction false} QuietAppend(rs: seq<Request>, more: seq<Request>)
    requires Quiet(more)
    ensures LastUtterance(rs + more) == LastUtterance(rs)
    decreases |more|
  {
    if more != [] {
      var init := more[..|more| - 1];
      assert (rs + more)[..|rs + more| - 1] == rs + init;
      assert (rs + more)[|rs + more| - 1] == more[|more| - 1];
      assert !more[|more| - 1].Utter?;
      QuietAppend(rs, init);
    } else {
      assert rs + more == rs;
    }
  }

  lemma QuietAppendKeeps(v: SessionView, more: seq<Request>)
    requires SpeechConsistent(v) && Quiet(more)
    ensures SpeechConsistent(v.(requests := v.requests + more))
  {
    QuietAppend(v.requests, more);
    var rs := v.requests + more;
    forall i | 0 < i < |rs| && rs[i].Utter?
      ensures rs[i - 1] == CancelSpeech
    {
      if i < |v.requests| {
        assert rs[i] == v.requests[i] && rs[i - 1] == v.requests[i - 1];
      }
    }
    if |rs| > 0 {
      if |v.requests| > 0 {
        assert rs[0] == v.requests[0];
      } else {
        assert rs[0] == more[0];
      }
    }
    if !v.synthesisAvailable {
      forall i | 0 <= i < |rs|
        ensures !rs[i].Utter?
      {
        if i < |v.requests| {
          assert rs[i] == v.requests[i];
        } else {
          assert rs[i] == more[i - |v.requests|];
        }
      }
    }
  }

  lemma SpeakKeepsConsistent(v: SessionView, text: string)
    requires SpeechConsistent(v)
    ensures SpeechConsistent(AfterSpeak(v, text))
  {
    if v.synthesisAvailable {
      var rs := v.requests + [CancelSpeech, Utter(text)];
      assert rs[..|rs| - 1] == v.requests + [CancelSpeech];
      forall i | 0 < i < |rs| && rs[i].Utter?
        ensures rs[i - 1] == CancelSpeech
      {
        if i < |v.requests| {
          assert rs[i] == v.requests[i] && rs[i - 1] == v.requests[i - 1];
        }
      }
      if |v.requests| > 0 {
        assert rs[0] == v.requests[0];
      }
    }
  }

  lemma CommandKeepsSpeech(v: SessionView, command: string, amb: Ambient)
    requires SpeechConsistent(v)
    ensures SpeechConsistent(AfterCommand(v, command, amb).view)
  {
    match Dispatch(command, amb)
    case Ignored =>
    case Threw =>
    case Answered(intent, spoken, line, target) =>
      var v1 := AfterSpeak(v.(history := v.history + [Entry(User, command)]), spoken);
      SpeakKeepsConsistent(v.(history := v.history + [Entry(User, command)]), spoken);
      if target.Some? {
        QuietAppendKeeps(v1, [OpenTarget(target.value)]);
      }
  }

  lemma StepKeepsSpeech(v: SessionView, e: Event)
    requires SpeechConsistent(v)
    ensures SpeechConsistent(Step(v, e))
  {
    match e
    case Heard(raw, amb) =>
      var g := Gate(Normalize(raw), v.isAwake);
      var woken := v.(isAwake := g.awake);
      match g.decision {
        case Drop =>
          QuietAppendKeeps(woken, [StopRecognition]);
        case Greet =>
          SpeakKeepsConsistent(woken, WakePrompt);
          QuietAppendKeeps(AfterSpeak(woken, WakePrompt), [StopRecognition]);
        case Forward(c) =>
          CommandKeepsSpeech(woken, c, amb);
          var r := AfterCommand(woken, c, amb);
          if !r.threw {
            QuietAppendKeeps(r.view, [StopRecognition]);
          }
      }
    case Typed(text, amb) => CommandKeepsSpeech(v, text, amb);
    case RecognitionFailed(error) =>
      if error == "not-allowed" {
        SpeakKeepsConsistent(v.(isListening := false), MicGuidance);
      }
    case TalkClicked =>
      QuietAppendKeeps(v, [if v.isListening then StopRecognition else StartRecognition]);
    case UtteranceEnded(autoListen) =>
      QuietAppendKeeps(v, [StartRecognition]);
    case _ =>
  }

  /** From a freshly loaded page, speech stays consistent whatever happens. */
  lemma {:induction false} RunKeepsSpeech(v: SessionView, es: seq<Event>)
    requires SpeechConsistent(v)
    ensures SpeechConsistent(Run(v, es))
    decreases |es|
  {
    if es != [] {
      StepKeepsSpeech(v, es[0]);
      RunKeepsSpeech(Step(v, es[0]), es[1..]);
    }
  }

  // ---------------------------------------------------------------------
  // From page load

  /**
   * Whatever happens after the page loads: the log is well formed, speech
   * requests are consistent with the remembered text, the listening flag
   * follows the recognition callbacks, and without the wake phrase the
   * assistant never wakes.
   */
  lemma FromPageLoad(synthesisAvailable: bool, es: seq<Event>)
    ensures var w := Run(Initial(synthesisAvailable), es);
            && WellFormedLog(w.history)
            && SpeechConsistent(w)
            && w.isListening == ListeningAfter(false, es)
            && (NoWakePhraseHeard(es) ==> !w.isAwake)
  {
    var v := Initial(synthesisAvailable);
    RunKeepsLog(v, es);
    InitialSpeechConsistent(synthesisAvailable);
    RunKeepsSpeech(v, es);
    ListeningFollowsCallbacks(v, es);
    if NoWakePhraseHeard(es) {
      AsleepUntilWakePhrase(v, es);
    }
  }
}
