# Mushaira turn engine

A model of the game-turn state machine of a Persian linked-verse game
("mushaira"). The player and an AI opponent take turns reciting verses. Each
new verse must start with the last letter of the one before it. The page
component keeps one `GameState`: whether a game is being played, the required
letter, the score, whether a call to the oracle is pending (`loading`), the
chat history, and whether the game is over. Two asynchronous handlers change
that state. The start handler resets the game and asks the oracle for an
opening verse. The send handler posts the player's verse and asks the oracle
to judge it and answer with a verse of its own.

The model turns each asynchronous step of those handlers into a pure
transition on an immutable `GameState`:

- `Types.dfy`: the records (`Sender`, `Message`, `GameState`, and the oracle's
  `Verdict`), plus JavaScript truthiness of optional fields. A missing string
  and `""` both count as absent. `x || null` becomes `OrNull`.
- `Text.dfy`: JavaScript's `String.prototype.trim`, using the ECMAScript
  whitespace and line-terminator characters.
- `Game.dfy`: `AddMessage` and the eight transitions `StartBegin`,
  `StartSucceeded`, `StartFailed`, `OpeningVerseDelivered`, `SubmitBegin`,
  `SubmitVerdict`, `SubmitFailed` and `BotVerseDelivered`. An `await` ends a
  transition, and the oracle's reply (a `Verdict`, or a failure) is the input
  of the next one. A `setTimeout` callback is returned as a `Timer` value, and
  `Fire` applies it later. `SubmitBegin` also returns the judgment `Request`.
  It holds the trimmed verse and the letter of the state the handler saw.
- `Session.dfy`: sessions as arbitrary sequences of events (`Step`, `Run`), and
  the properties that hold of every sequence. The score counts acceptances
  since the last start. The game is over exactly when a winner was declared
  since the last start. The history is append-only between starts. Only three
  kinds of event change the letter. Every state is well formed. Worked turns
  are included as lemmas.

The record types carry the shape of the source's types directly. `Sender`
has exactly the two values `USER` and `BOT`. A `Message` always has a text
and a sender, and its poet is optional. A `Verdict` always has `isValid` and
`message`, and each of its other four fields is independently optional.
`requiredLetter` is `None` or a string, and `Initial` is the state the page
starts in.

## Behaviour worth knowing

The model keeps each of these behaviours of the code, although a reader of a
turn-based game might expect otherwise.

- `loading` is cleared when a verdict arrives, before the deferred verse is
  posted (App.tsx:57, 87). The pending flag therefore does not cover the
  deferred append: a new submission is accepted in that window, and it
  carries the old letter (`SubmitBeforeBotVerseUsesOldLetter`).
- An accepted verdict that has neither a verse nor `isWinner` only adds the
  point (App.tsx:95-115). No message is posted, not even a generic error.
- A win does not clear `requiredLetter` (App.tsx:112-114). The letter stays
  in the state; the page only hides it once the game is over.
- The send handler does not check `isPlaying` (App.tsx:76). Its only guards
  are blank input, `loading` and `gameOver`; outside a game the page simply
  does not render the text box.
- The start handler has no guard, not even on `loading` (App.tsx:42-50).
- No stale timer is detected. A deferred verse from an earlier game is posted
  into whatever state is current when it fires; there is no generation check.

## Model

| member | source | states |
|---|---|---|
| Types.OrNull | App.tsx:58 | The JavaScript "or null" fallback keeps a non-empty string and turns a missing or empty one into null. It never yields the empty string. |
| Text.TrimStart | App.tsx:78 | The result is the suffix of the input that starts at its first non-space character. Everything dropped is whitespace. |
| Text.TrimEnd | App.tsx:78 | The result is the prefix of the input that ends at its last non-space character. Everything dropped is whitespace. |
| Text.Trim | App.tsx:78 | `trim()` returns a contiguous slice of the input. Only whitespace lies before and after it, and its first and last characters are not whitespace. |
| Text.TrimEmptyIffAllSpace | App.tsx:76 | The emptiness test on the trimmed input rejects exactly the inputs made only of whitespace, in both directions. |
| Text.TrimOfBordered | App.tsx:78 | Text with no whitespace at either end is posted exactly as typed. |
| Text.TrimIdempotent | App.tsx:78 | Trimming an already trimmed verse changes nothing. |
| Game.AddMessage | App.tsx:26-40 | Exactly one message with the given text, sender, poet and error flag goes at the end. Every earlier message and every other field is unchanged. |
| Game.StartBegin | App.tsx:42-50 | From any state: playing, loading, score 0, no letter, empty history, not over. |
| Game.StartSucceeded | App.tsx:52-67 | Loading ends, and the letter is the verdict's next letter if present, otherwise null. Exactly one non-error BOT message with the feedback is appended. A verse callback is scheduled exactly when the verdict has a non-empty verse. Playing, score and game-over are unchanged. |
| Game.StartFailed | App.tsx:68-72 | Loading and playing both end. Everything else, including the score, history and letter just reset, stays as it was. |
| Game.OpeningVerseDelivered | App.tsx:62-66 | The opening verse is appended as a BOT message with its poet. Nothing else changes. |
| Game.SubmitBegin | App.tsx:75-85 | A request is sent exactly when the input is not all whitespace, no call is pending and the game is not over. Otherwise the state is unchanged. When sent, one USER message with the trimmed text is appended and loading starts. The request carries the trimmed text and the state's current letter. Nothing else changes. |
| Game.SubmitVerdict | App.tsx:87-115 | Loading always ends. Playing and the letter never change at this step. A rejection appends one BOT error message with no poet and keeps the score. An acceptance adds exactly 1 point. A verse is then scheduled exactly when one is present. Otherwise, if `isWinner` is set, the feedback is appended and the game ends. Otherwise nothing is appended. The game is over afterwards exactly when it already was or this verdict declared a winner. |
| Game.SubmitFailed | App.tsx:117-121 | Loading ends and one BOT error message with the fixed error text is appended. The score, letter and game flags are unchanged. |
| Game.BotVerseDelivered | App.tsx:105-111 | The bot's verse is appended with its poet, and the letter becomes the verdict's next letter, or null. Nothing else changes. |
| Game.Fire | App.tsx:64-110 | A scheduled callback (the opening one at lines 64-66 or the turn one at lines 105-110) appends exactly one non-error BOT message carrying the verse and poet it captured. The opening callback keeps the letter; the turn callback sets it to the verdict's next letter, or null. Score, loading, playing and game-over are unchanged. |
| Session.StartForgetsPrior | App.tsx:42-50 | The state after a start does not depend on the state before it. It is the initial state, except that it is playing and loading. |
| Session.StartFailureRestoresInitial | App.tsx:9-16 | A start whose opening call fails ends exactly in the page's initial state. |
| Session.ScoreCountsAcceptances | App.tsx:95 | With no start among the events, the score grows by exactly the number of accepted verdicts. |
| Session.ScoreSinceStart | App.tsx:46 | The score equals the number of accepted verdicts since the last start. |
| Session.ScoreMonotone | App.tsx:95 | The score never decreases between starts. |
| Session.GameOverIffWin | App.tsx:112-115 | With no start among the events, the game is over exactly when it already was or some reply declared a winner. |
| Session.GameOverSinceStart | App.tsx:49 | After the last start, the game is over exactly when a winner has been declared since, in both directions. |
| Session.GameOverSilencesUser | App.tsx:76 | Once over, a game stays over until the next start. Every message added meanwhile is the bot's. |
| Session.StepAppendsAtMostOne | App.tsx:36-39 | Every event other than a start keeps the history as a prefix and adds at most one message. |
| Session.HistoryAppendOnly | App.tsx:36-39 | Between starts, the history only grows at its end, by at most one message per event. |
| Session.LetterFrame | App.tsx:107-110 | Events other than a start, an opening verdict and the bot-verse callback never change the letter. This covers rejections, failures, wins and submissions. |
| Session.SubmitRefusedWhilePending | App.tsx:76 | While a call is pending, whatever events came before, a submission sends nothing and changes nothing. |
| Session.SubmitBeforeBotVerseUsesOldLetter | App.tsx:85-111 | After an accepted verdict with a verse and before that verse is posted, a new submission is accepted. Its request carries the letter from before the verdict. |
| Session.InitialWellFormed | App.tsx:9-16 | The initial state satisfies the state invariant. |
| Session.StepPreservesWellFormed | App.tsx:26-121 | Every transition keeps the invariant. The letter is null or non-empty. USER messages are trimmed, non-empty, error-free and have no poet. Error messages are always the bot's and have no poet. |
| Session.RunPreservesWellFormed | App.tsx:26-121 | Every event sequence from a well-formed state ends in a well-formed state. |
| Session.OpeningScenario | App.tsx:52-66 | Opening with feedback "سلام", verse "بیت۱" by "حافظ" and letter "ز", with the verse callback run next, gives exactly those two BOT messages and the letter "ز". |
| Session.RejectionScenario | App.tsx:76-92 | Rejecting a verse while the letter is "ز" posts the verse and one BOT error. The score stays and the letter stays "ز". |
| Session.WinScenario | App.tsx:76-115 | After a submitted verse, a winning verdict with no verse posts the feedback after the USER message, ends loading, adds a point and ends the game. It keeps the letter, and every later submission is refused. |
| Session.FailureScenario | App.tsx:117-121 | A failed turn call leaves the USER message and adds one BOT error. The flags, score and letter are unchanged, and a new non-blank submission is accepted. |

## Left out

- The oracle client (`services/geminiService.ts`): its prompts, the model call and `JSON.parse`. Its result is the `Outcome` input, either a `Verdict` or `Failed`. The model assumes the reply has the verdict's shape. The source does not check the shape; it only casts the parsed JSON.
- The equivalence of the two alef letters. It exists only in the prompt text sent to the oracle, so no code implements it.
- Message `id` and `timestamp`. They come from the clock and a random number.
- The 600 ms and 500 ms delays and any interleaving of callbacks. A callback is a separate later event in any order, with no timing.
- `alert`, `console.error`, scrolling, the input box's own state and `handleKeyDown`. Only the text passed to `SubmitBegin` is modelled.
- The JSX that renders the state, and the two presentation components.
- Game.SubmitVerdict: the score is an unbounded `nat`. The source's JavaScript number is a double that stops counting exactly past 2^53, which no game reaches.
