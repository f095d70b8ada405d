/** The records the game operates on: the chat message, the game state and the
    oracle's verdict, together with the JavaScript notion of a "present" optional
    string that the transitions test with `if (x)` and `x || null`. */
module Types {

  /** An optional value: the TypeScript `T | null` and `T | undefined`. */
  datatype Option<+T> = None | Some(value: T)

  /** Who wrote a chat message. */
  datatype Sender = USER | BOT

  /** One chat bubble. The source's `id` and `timestamp` come from the clock and a
      random number and are not modelled. `isError` is optional in the record type,
      but every message is built by `addMessage`, which always sets it (default false). */
  datatype Message = Message(text: string, sender: Sender, poet: Option<string>, isError: bool)

  /** The whole state the page renders from. */
  datatype GameState = GameState(
    isPlaying: bool,
    requiredLetter: Option<string>,
    score: nat,
    loading: bool,
    messages: seq<Message>,
    gameOver: bool)

  /** The oracle's structured reply: `isValid` and `message` are always present,
      every other field may independently be missing. */
  datatype Verdict = Verdict(
    isValid: bool,
    message: string,
    botVerse: Option<string>,
    botVersePoet: Option<string>,
    nextLetter: Option<string>,
    isWinner: Option<bool>)

  /** What an awaited oracle call yields: a verdict, or a thrown error. */
  datatype Outcome = Replied(verdict: Verdict) | Failed

  /** A verse append scheduled with `setTimeout`; each variant holds what its
      callback captured from the verdict. */
  datatype Timer =
    | OpeningVerse(verse: string, poet: Option<string>)
    | BotVerse(verse: string, poet: Option<string>, nextLetter: Option<string>)

  /** The arguments of one verse-judgment call: the trimmed verse and the letter
      it had to start with. */
  datatype Request = Request(verse: string, letter: Option<string>)

  /** The state before any game has been started. */
  const Initial := GameState(false, None, 0, false, [], false)

  /** JavaScript truthiness of an optional string: missing and "" are both falsy. */
  predicate Present(o: Option<string>) {
    o.Some? && o.value != ""
  }

  /** JavaScript truthiness of an optional boolean. */
  predicate IsTrue(o: Option<bool>) {
    o == Some(true)
  }

  /** The expression `o || null`: a falsy string collapses to null. */
  function OrNull(o: Option<string>): (r: Option<string>)
    ensures r.Some? <==> Present(o)
    ensures Present(o) ==> r == o
    ensures r != Some("")
  {
    if Present(o) then o else None
  }

  /** A required letter the state can hold: null or a non-empty string. */
  predicate LetterOk(l: Option<string>) {
    l != Some("")
  }
}
