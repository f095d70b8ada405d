/** The turn engine of the page component: the append helper and the state
    updates of the start and send handlers, each asynchronous step cut out as
    its own pure transition. An `await` ends one transition and its result
    (a verdict or a failure) is the input of the next; a `setTimeout` callback
    is returned as a `Timer` and applied later by `Fire`. */
module Game {
  import opened Types
  import opened Text

  /** The chat text posted when the verse-judgment call throws. */
  const ConnectionError: string := "خطایی رخ داد. لطفاً مجدد تلاش کنید."

  /** An accepted verdict that ends the game: no verse came back and the oracle
      declared a winner. The verse test comes first in the source, so a verdict
      with both a verse and `isWinner` continues the game. */
  predicate EndsGame(v: Verdict) {
    v.isValid && !Present(v.botVerse) && IsTrue(v.isWinner)
  }

  /** `addMessage`: one message goes on the end of the history and nothing
      else in the state moves. */
  function AddMessage(s: GameState, text: string, sender: Sender, poet: Option<string>, isError: bool): (r: GameState)
    ensures |r.messages| == |s.messages| + 1
    ensures r.messages[..|s.messages|] == s.messages
    ensures r.messages[|s.messages|] == Message(text, sender, poet, isError)
    ensures r.(messages := s.messages) == s
  {
    s.(messages := s.messages + [Message(text, sender, poet, isError)])
  }

  /** `handleStartGame` up to its `await`: the whole state is replaced, whatever
      it was; there is no guard. */
  function StartBegin(s: GameState): (r: GameState)
    ensures r.isPlaying && r.loading && !r.gameOver
    ensures r.score == 0 && r.requiredLetter == None && r.messages == []
  {
    GameState(true, None, 0, true, [], false)
  }

  /** The opening verdict arrived: loading ends, the letter is taken from the
      verdict (a missing or empty one gives no letter), the feedback is posted
      as a bot message, and a verse, when the verdict has one, is scheduled. */
  function StartSucceeded(s: GameState, v: Verdict): (r: (GameState, Option<Timer>))
    ensures !r.0.loading
    ensures Present(v.nextLetter) ==> r.0.requiredLetter == v.nextLetter
    ensures !Present(v.nextLetter) ==> r.0.requiredLetter == None
    ensures r.0.messages == s.messages + [Message(v.message, BOT, None, false)]
    ensures r.0.isPlaying == s.isPlaying && r.0.score == s.score && r.0.gameOver == s.gameOver
    ensures r.1.Some? <==> Present(v.botVerse)
    ensures r.1.Some? ==> r.1.value == OpeningVerse(v.botVerse.value, v.botVersePoet)
  {
    var t := s.(loading := false, requiredLetter := OrNull(v.nextLetter));
    var timer := if Present(v.botVerse) then Some(OpeningVerse(v.botVerse.value, v.botVersePoet)) else None;
    (AddMessage(t, v.message, BOT, None, false), timer)
  }

  /** The opening call threw: loading ends and the game is no longer being
      played; everything the start reset stays as it was. */
  function StartFailed(s: GameState): (r: GameState)
    ensures !r.loading && !r.isPlaying
    ensures r.(loading := s.loading, isPlaying := s.isPlaying) == s
  {
    s.(loading := false, isPlaying := false)
  }

  /** The 600 ms callback of the start handler: the opening verse is posted with
      its poet. */
  function OpeningVerseDelivered(s: GameState, verse: string, poet: Option<string>): (r: GameState)
    ensures r.messages == s.messages + [Message(verse, BOT, poet, false)]
    ensures r.(messages := s.messages) == s
  {
    AddMessage(s, verse, BOT, poet, false)
  }

  /** `handleSendMessage` up to its `await`. Blank input, a pending call or a
      finished game leave the state alone and send nothing. Otherwise the
      trimmed text is posted as the user's message, loading starts, and the
      judgment request carries that text and the letter of the state the
      handler saw. */
  function SubmitBegin(s: GameState, raw: string): (r: (GameState, Option<Request>))
    ensures r.1.Some? <==> !AllSpace(raw) && !s.loading && !s.gameOver
    ensures r.1.None? ==> r.0 == s
    ensures r.1.Some? ==> r.1.value == Request(Trim(raw), s.requiredLetter)
    ensures r.1.Some? ==> r.0.loading
    ensures r.1.Some? ==> r.0.messages == s.messages + [Message(Trim(raw), USER, None, false)]
    ensures r.0.(loading := s.loading, messages := s.messages) == s
  {
    TrimEmptyIffAllSpace(raw);
    var verse := Trim(raw);
    if verse == "" || s.loading || s.gameOver then
      (s, None)
    else
      (AddMessage(s, verse, USER, None, false).(loading := true), Some(Request(verse, s.requiredLetter)))
  }

  /** The turn verdict arrived. Loading ends in every case. A rejection posts
      the feedback as an error and changes nothing else. An acceptance adds one
      point and then: a verse is scheduled (the letter changes only when it is
      posted), or a winner is declared (the feedback is posted and the game is
      over, the letter stays), or nothing more happens. */
  function SubmitVerdict(s: GameState, v: Verdict): (r: (GameState, Option<Timer>))
    ensures !r.0.loading
    ensures r.0.isPlaying == s.isPlaying && r.0.requiredLetter == s.requiredLetter
    ensures r.0.score == if v.isValid then s.score + 1 else s.score
    ensures r.0.gameOver <==> s.gameOver || EndsGame(v)
    ensures r.1.Some? <==> v.isValid && Present(v.botVerse)
    ensures r.1.Some? ==> r.1.value == BotVerse(v.botVerse.value, v.botVersePoet, v.nextLetter)
    ensures !v.isValid ==> r.0.messages == s.messages + [Message(v.message, BOT, None, true)]
    ensures EndsGame(v) ==> r.0.messages == s.messages + [Message(v.message, BOT, None, false)]
    ensures v.isValid && !EndsGame(v) ==> r.0.messages == s.messages
  {
    var t := s.(loading := false);
    if !v.isValid then
      (AddMessage(t, v.message, BOT, None, true), None)
    else
      var u := t.(score := t.score + 1);
      if Present(v.botVerse) then
        (u, Some(BotVerse(v.botVerse.value, v.botVersePoet, v.nextLetter)))
      else if IsTrue(v.isWinner) then
        (AddMessage(u, v.message, BOT, None, false).(gameOver := true), None)
      else
        (u, None)
  }

  /** The turn call threw: loading ends and a generic error is posted; the
      user's message stays and the score, letter and game flags do not move. */
  function SubmitFailed(s: GameState): (r: GameState)
    ensures !r.loading
    ensures r.messages == s.messages + [Message(ConnectionError, BOT, None, true)]
    ensures r.(loading := s.loading, messages := s.messages) == s
  {
    AddMessage(s.(loading := false), ConnectionError, BOT, None, true)
  }

  /** The 500 ms callback of the send handler: the bot's verse is posted with
      its poet and the letter becomes the verdict's next letter, or none when
      that is missing or empty. */
  function BotVerseDelivered(s: GameState, verse: string, poet: Option<string>, nextLetter: Option<string>): (r: GameState)
    ensures r.messages == s.messages + [Message(verse, BOT, poet, false)]
    ensures Present(nextLetter) ==> r.requiredLetter == nextLetter
    ensures !Present(nextLetter) ==> r.requiredLetter == None
    ensures r.(messages := s.messages, requiredLetter := s.requiredLetter) == s
  {
    AddMessage(s, verse, BOT, poet, false).(requiredLetter := OrNull(nextLetter))
  }

  /** Runs a scheduled callback: the captured verse is posted, and only the
      bot-verse callback moves the letter. */
  function Fire(s: GameState, t: Timer): (r: GameState)
    ensures |r.messages| == |s.messages| + 1 && r.messages[..|s.messages|] == s.messages
    ensures r.messages[|s.messages|] == Message(t.verse, BOT, t.poet, false)
    ensures r.requiredLetter == if t.BotVerse? then OrNull(t.nextLetter) else s.requiredLetter
    ensures r.score == s.score && r.loading == s.loading
    ensures r.isPlaying == s.isPlaying && r.gameOver == s.gameOver
  {
    match t
    case OpeningVerse(verse, poet) => OpeningVerseDelivered(s, verse, poet)
    case BotVerse(verse, poet, nextLetter) => BotVerseDelivered(s, verse, poet, nextLetter)
  }
}
