/** A session as the sequence of events the page delivers to the turn engine:
    button clicks, oracle replies and timer callbacks, in whatever order they
    come. The lemmas state what holds of every such sequence. */
module Session {
  import opened Types
  import opened Text
  import opened Game

  /** One input to the engine. */
  datatype Event =
    | Start                        // the start or replay button
    | StartReply(outcome: Outcome) // the opening call returned or threw
    | Submit(raw: string)          // the send button or Enter, with the text box's contents
    | SubmitReply(outcome: Outcome)// the turn call returned or threw
    | TimerFired(timer: Timer)     // a scheduled verse append ran

  /** The state after one event; requests and timers the step emits are dropped
      here (the timer comes back as its own event). */
  function Step(s: GameState, e: Event): GameState {
    match e
    case Start => StartBegin(s)
    case StartReply(Replied(v)) => StartSucceeded(s, v).0
    case StartReply(Failed) => StartFailed(s)
    case Submit(raw) => SubmitBegin(s, raw).0
    case SubmitReply(Replied(v)) => SubmitVerdict(s, v).0
    case SubmitReply(Failed) => SubmitFailed(s)
    case TimerFired(t) => Fire(s, t)
  }

  /** The state after a sequence of events. */
  function Run(s: GameState, es: seq<Event>): GameState
    decreases |es|
  {
    if es == [] then s else Step(Run(s, es[..|es| - 1]), es[|es| - 1])
  }

  predicate NoStart(es: seq<Event>) {
    forall i :: 0 <= i < |es| ==> !es[i].Start?
  }

  predicate IsAcceptance(e: Event) {
    e.SubmitReply? && e.outcome.Replied? && e.outcome.verdict.isValid
  }

  predicate IsWin(e: Event) {
    e.SubmitReply? && e.outcome.Replied? && EndsGame(e.outcome.verdict)
  }

  /** The number of accepted verses among the events. */
  function Accepted(es: seq<Event>): nat
    decreases |es|
  {
    if es == [] then 0
    else Accepted(es[..|es| - 1]) + if IsAcceptance(es[|es| - 1]) then 1 else 0
  }

  predicate AnyWin(es: seq<Event>) {
    exists i :: 0 <= i < |es| && IsWin(es[i])
  }

  /** The events that can change the required letter: a start, an opening
      verdict and the bot-verse callback. */
  predicate SetsLetter(e: Event) {
    e.Start? || (e.StartReply? && e.outcome.Replied?) || (e.TimerFired? && e.timer.BotVerse?)
  }

  /** A message as every transition builds it: the user's are trimmed,
      non-empty, unattributed and never errors; errors are always the bot's and
      unattributed. */
  predicate MessageOk(m: Message) {
    && (m.sender == USER ==> m.text != "" && Trim(m.text) == m.text && m.poet == None && !m.isError)
    && (m.isError ==> m.sender == BOT && m.poet == None)
  }

  /** The state invariant: the letter is null or non-empty (the `|| null`
      normalisation) and every message is well formed. */
  predicate WellFormed(s: GameState) {
    && LetterOk(s.requiredLetter)
    && forall i :: 0 <= i < |s.messages| ==> MessageOk(s.messages[i])
  }

  // ---------------------------------------------------------------------------
  // Composition

  /** Running two event sequences one after the other is running their
      concatenation. */
  lemma {:induction false} RunAppend(s: GameState, a: seq<Event>, b: seq<Event>)
    ensures Run(s, a + b) == Run(Run(s, a), b)
    decreases |b|
  {
    if b == [] {
      assert a + b == a;
    } else {
      var b' := b[..|b| - 1];
      assert (a + b)[..|a + b| - 1] == a + b';
      RunAppend(s, a, b');
    }
  }

  // ---------------------------------------------------------------------------
  // Starting a game

  /** Starting forgets everything: the state after a start is the same whatever
      state it started from, and differs from the initial one only in playing
      and loading. */
  lemma StartForgetsPrior(s: GameState, s': GameState)
    ensures Step(s, Start) == Step(s', Start)
    ensures Step(s, Start) == Initial.(isPlaying := true, loading := true)
  {
  }

  /** A failed opening call lands exactly back on the initial state. */
  lemma StartFailureRestoresInitial(s: GameState)
    ensures Run(s, [Start, StartReply(Failed)]) == Initial
  {
    assert [Start, StartReply(Failed)][..1] == [Start];
  }

  // ---------------------------------------------------------------------------
  // Score

  /** Away from a start, every accepted verse adds one point and nothing else
      changes the score. */
  lemma {:induction false} ScoreCountsAcceptances(s: GameState, es: seq<Event>)
    requires NoStart(es)
    ensures Run(s, es).score == s.score + Accepted(es)
    decreases |es|
  {
    if es != [] {
      ScoreCountsAcceptances(s, es[..|es| - 1]);
    }
  }

  /** After the last start, the score is the number of accepted verses since. */
  lemma ScoreSinceStart(s: GameState, before: seq<Event>, after: seq<Event>)
    requires NoStart(after)
    ensures Run(s, before + [Start] + after).score == Accepted(after)
  {
    RunAppend(s, before + [Start], after);
    assert (before + [Start])[..|before|] == before;
    ScoreCountsAcceptances(Run(s, before + [Start]), after);
  }

  /** The score never goes down unless a game is started. */
  lemma ScoreMonotone(s: GameState, es: seq<Event>)
    requires NoStart(es)
    ensures s.score <= Run(s, es).score
  {
    ScoreCountsAcceptances(s, es);
  }

  // ---------------------------------------------------------------------------
  // Game over

  /** Away from a start, the game is over exactly when it already was or some
      reply among the events declared a winner. */
  lemma {:induction false} GameOverIffWin(s: GameState, es: seq<Event>)
    requires NoStart(es)
    ensures Run(s, es).gameOver <==> s.gameOver || AnyWin(es)
    decreases |es|
  {
    if es != [] {
      var init := es[..|es| - 1];
      GameOverIffWin(s, init);
      if AnyWin(init) {
        var i :| 0 <= i < |init| && IsWin(init[i]);
        assert IsWin(es[i]);
      }
      if AnyWin(es) && !IsWin(es[|es| - 1]) {
        var i :| 0 <= i < |es| && IsWin(es[i]);
        assert IsWin(init[i]);
      }
    }
  }

  /** After the last start, the game is over exactly when a winner has been
      declared since. */
  lemma GameOverSinceStart(s: GameState, before: seq<Event>, after: seq<Event>)
    requires NoStart(after)
    ensures Run(s, before + [Start] + after).gameOver <==> AnyWin(after)
  {
    RunAppend(s, before + [Start], after);
    assert (before + [Start])[..|before|] == before;
    GameOverIffWin(Run(s, before + [Start]), after);
  }

  /** Once over, a game stays over until the next start, and no user message
      is posted in the meantime. */
  lemma {:induction false} GameOverSilencesUser(s: GameState, es: seq<Event>)
    requires NoStart(es) && s.gameOver
    ensures Run(s, es).gameOver
    ensures |s.messages| <= |Run(s, es).messages|
    ensures forall i :: |s.messages| <= i < |Run(s, es).messages| ==> Run(s, es).messages[i].sender == BOT
    decreases |es|
  {
    if es != [] {
      GameOverSilencesUser(s, es[..|es| - 1]);
    }
  }

  // ---------------------------------------------------------------------------
  // History and letter

  /** Every event but a start keeps the history and adds at most one message. */
  lemma StepAppendsAtMostOne(s: GameState, e: Event)
    requires !e.Start?
    ensures |s.messages| <= |Step(s, e).messages| <= |s.messages| + 1
    ensures Step(s, e).messages[..|s.messages|] == s.messages
  {
  }

  /** Away from a start the history is append-only, and each event adds at most
      one message. */
  lemma {:induction false} HistoryAppendOnly(s: GameState, es: seq<Event>)
    requires NoStart(es)
    ensures |s.messages| <= |Run(s, es).messages| <= |s.messages| + |es|
    ensures Run(s, es).messages[..|s.messages|] == s.messages
    decreases |es|
  {
    if es != [] {
      var init := es[..|es| - 1];
      HistoryAppendOnly(s, init);
      var prev := Run(s, init);
      StepAppendsAtMostOne(prev, es[|es| - 1]);
      var m := prev.messages;
      var m' := Run(s, es).messages;
      assert m'[..|s.messages|] == m'[..|m|][..|s.messages|];
    }
  }

  /** Only a start, an opening verdict or the bot-verse callback changes the
      required letter: rejections, failures, wins and submissions never do. */
  lemma {:induction false} LetterFrame(s: GameState, es: seq<Event>)
    requires forall i :: 0 <= i < |es| ==> !SetsLetter(es[i])
    ensures Run(s, es).requiredLetter == s.requiredLetter
    decreases |es|
  {
    if es != [] {
      LetterFrame(s, es[..|es| - 1]);
    }
  }

  // ---------------------------------------------------------------------------
  // The pending gate

  /** While a call is pending every submission is refused and changes
      nothing, whatever events came between: two submissions with no reply
      between them send one request. */
  lemma SubmitRefusedWhilePending(s: GameState, raw: string)
    requires s.loading
    ensures SubmitBegin(s, raw) == (s, None)
  {
  }

  /** Loading is cleared when the verdict arrives, before the scheduled verse
      is posted, so a submission in between is accepted and asks about the
      letter from before the verdict, not the one the bot's verse will set. */
  lemma SubmitBeforeBotVerseUsesOldLetter(s: GameState, v: Verdict, raw: string)
    requires !s.gameOver && v.isValid && Present(v.botVerse) && !AllSpace(raw)
    ensures SubmitBegin(SubmitVerdict(s, v).0, raw).1 == Some(Request(Trim(raw), s.requiredLetter))
  {
  }

  // ---------------------------------------------------------------------------
  // The invariant

  lemma InitialWellFormed()
    ensures WellFormed(Initial)
  {
  }

  /** Every event keeps the state well formed. */
  lemma StepPreservesWellFormed(s: GameState, e: Event)
    requires WellFormed(s)
    ensures WellFormed(Step(s, e))
  {
    var r := Step(s, e);
    forall i | 0 <= i < |r.messages|
      ensures MessageOk(r.messages[i])
    {
      if i >= |s.messages| && e.Submit? {
        TrimEmptyIffAllSpace(e.raw);
        TrimIdempotent(e.raw);
      }
    }
  }

  /** Every event sequence from a well-formed state ends in one. */
  lemma {:induction false} RunPreservesWellFormed(s: GameState, es: seq<Event>)
    requires WellFormed(s)
    ensures WellFormed(Run(s, es))
    decreases |es|
  {
    if es != [] {
      RunPreservesWellFormed(s, es[..|es| - 1]);
      StepPreservesWellFormed(Run(s, es[..|es| - 1]), es[|es| - 1]);
    }
  }

  // ---------------------------------------------------------------------------
  // Worked turns

  /** An opening verdict with feedback, verse, poet and letter, its verse
      callback run before anything else: two bot messages and the letter set. */
  lemma OpeningScenario(s: GameState)
    ensures
      var v := Verdict(true, "سلام", Some("بیت۱"), Some("حافظ"), Some("ز"), None);
      var begun := StartSucceeded(StartBegin(s), v);
      && begun.1 == Some(OpeningVerse("بیت۱", Some("حافظ")))
      && Fire(begun.0, begun.1.value).messages
         == [Message("سلام", BOT, None, false), Message("بیت۱", BOT, Some("حافظ"), false)]
      && Fire(begun.0, begun.1.value).requiredLetter == Some("ز")
      && !Fire(begun.0, begun.1.value).loading
  {
  }

  /** A rejected verse (the player's text is posted as typed when it has no
      surrounding spaces): the user's message and one bot error are posted;
      score and letter stay. */
  lemma RejectionScenario(s: GameState, verse: string, feedback: string)
    requires !s.loading && !s.gameOver && s.requiredLetter == Some("ز")
    requires verse != [] && !IsSpace(verse[0]) && !IsSpace(verse[|verse| - 1])
    ensures
      var sent := SubmitBegin(s, verse);
      var judged := SubmitVerdict(sent.0, Verdict(false, feedback, None, None, None, None));
      && sent.1 == Some(Request(verse, Some("ز")))
      && judged.0.messages == s.messages + [Message(verse, USER, None, false), Message(feedback, BOT, None, true)]
      && judged.0.score == s.score
      && judged.0.requiredLetter == Some("ز")
      && judged.1 == None
  {
    TrimOfBordered(verse);
    TrimEmptyIffAllSpace(verse);
  }

  /** A submitted verse that the oracle accepts and declares a win: the verse
      and the feedback are posted, loading ends, one point is added, the game
      is over, the letter is kept, and any further submission is refused. */
  lemma WinScenario(s: GameState, raw: string, later: string)
    requires SubmitBegin(s, raw).1.Some?
    ensures
      var v := Verdict(true, "آفرین", None, None, None, Some(true));
      var won := SubmitVerdict(SubmitBegin(s, raw).0, v).0;
      && won.messages == s.messages + [Message(Trim(raw), USER, None, false), Message("آفرین", BOT, None, false)]
      && !won.loading && won.gameOver && won.score == s.score + 1
      && won.requiredLetter == s.requiredLetter && won.isPlaying == s.isPlaying
      && SubmitBegin(won, later) == (won, None)
  {
  }

  /** A failed turn call: one bot error, loading ends, flags stay, and the
      player may send again. */
  lemma FailureScenario(s: GameState, raw: string, again: string)
    requires SubmitBegin(s, raw).1.Some? && !AllSpace(again)
    ensures
      var failed := SubmitFailed(SubmitBegin(s, raw).0);
      && |failed.messages| == |s.messages| + 2
      && failed.messages[|s.messages|].sender == USER
      && failed.messages[|s.messages| + 1] == Message(ConnectionError, BOT, None, true)
      && failed.isPlaying == s.isPlaying && failed.gameOver == s.gameOver
      && failed.score == s.score && failed.requiredLetter == s.requiredLetter
      && SubmitBegin(failed, again).1.Some?
  {
  }
}
