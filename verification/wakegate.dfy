/**
 * The wake gate of `recognition.onresult`: the assistant is asleep or
 * awake, the phrase "hey jarvis" wakes it, and while it sleeps every other
 * transcript is dropped.
 */
module WakeGate {
  import opened JsString

  const WakePhrase: string := "hey jarvis"
  const WakePrompt: string := "Yes, Sir. How may I assist you?"

  /** `transcript.trim().toLowerCase()`. */
  function Normalize(raw: string): string {
    Lower(Trim(raw))
  }

  /** A normalized transcript is lower case and has no whitespace at either end. */
  lemma NormalizedForm(raw: string)
    ensures IsLower(Normalize(raw)) && Trimmed(Normalize(raw))
  {
    var r := Trim(raw);
    TrimShape(raw);
    LowerPointwise(r);
    var t := Lower(r);
    assert r != [] ==> t[0] == LowerChar(r[0]) && t[|t| - 1] == LowerChar(r[|t| - 1]);
  }

  /** What the gate does with one transcript. */
  datatype Decision =
    | Drop                      // asleep and no wake phrase: nothing happens
    | Greet                     // wake phrase and nothing else: speak the prompt
    | Forward(command: string)  // hand `command` to the dispatcher

  datatype GateResult = GateResult(decision: Decision, awake: bool)

  /** The text left after the first occurrence of the wake phrase is removed and the rest trimmed. */
  function Remainder(transcript: string): string {
    Trim(ReplaceFirst(transcript, WakePhrase, ""))
  }

  /** One step of the gate, on a normalized transcript and the current awake flag. */
  function Gate(transcript: string, awake: bool): GateResult {
    if Includes(transcript, WakePhrase) || awake then
      if Includes(transcript, WakePhrase) then
        var command := Remainder(transcript);
        GateResult(if command != [] then Forward(command) else Greet, true)
      else
        GateResult(Forward(transcript), awake)
    else
      GateResult(Drop, awake)
  }

  /** The gate only ever wakes the assistant: it is awake afterwards exactly when it was, or the phrase was heard. */
  lemma GateAwakeAfter(transcript: string, awake: bool)
    ensures Gate(transcript, awake).awake == (awake || Includes(transcript, WakePhrase))
  {
  }

  /** Asleep and no wake phrase: the transcript is dropped and the assistant stays asleep. */
  lemma AsleepWithoutPhraseDrops(transcript: string)
    requires !Includes(transcript, WakePhrase)
    ensures Gate(transcript, false) == GateResult(Drop, false)
  {
  }

  /** Awake and no wake phrase: the transcript goes to the dispatcher unchanged. */
  lemma AwakeForwardsUnchanged(transcript: string)
    requires !Includes(transcript, WakePhrase)
    ensures Gate(transcript, true) == GateResult(Forward(transcript), true)
  {
  }

  /**
   * With the wake phrase: the assistant wakes; only the FIRST occurrence of
   * the phrase is cut out; an empty remainder greets, any other is forwarded.
   */
  lemma PhraseWakes(transcript: string, awake: bool)
    requires Includes(transcript, WakePhrase)
    ensures var i := IndexOf(transcript, WakePhrase).value;
            var rest := Trim(transcript[..i] + transcript[i + |WakePhrase|..]);
            Gate(transcript, awake) == GateResult(if rest == [] then Greet else Forward(rest), true)
  {
    var i := IndexOf(transcript, WakePhrase).value;
    var cut := transcript[..i] + transcript[i + |WakePhrase|..];
    assert ReplaceFirst(transcript, WakePhrase, "") == transcript[..i] + "" + transcript[i + |WakePhrase|..];
    assert transcript[..i] + "" == transcript[..i];
    assert Remainder(transcript) == Trim(cut);
  }

  /** A command forwarded from a lower-case transcript is lower case. */
  lemma ForwardedIsLower(transcript: string, awake: bool)
    requires IsLower(transcript)
    ensures Gate(transcript, awake).decision.Forward? ==> IsLower(Gate(transcript, awake).decision.command)
  {
    if Includes(transcript, WakePhrase) {
      ReplaceFirstKeepsLower(transcript, WakePhrase);
      TrimKeepsLower(ReplaceFirst(transcript, WakePhrase, ""));
    }
  }
}
