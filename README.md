# Guess the Number — a verified model of the game session

The program is a browser game: a secret number between 1 and 100 is drawn,
the player types guesses into a form, and each submission is answered with a
"too high" / "too low" hint until the player finds the number or uses up ten
attempts. All of its state lives in one object, `gameState` (secret number,
attempts, the attempt limit, the list of earlier guesses, and whether the
game is still running). Everything else in the script drives the page.

This project models that state machine in Dafny:

- `wrappers.dfy` — module `Wrappers`: an `Option` type. `None` stands for
  JavaScript's `NaN`.
- `js_number.dfy` — module `JsNumber`: the radix-less `parseInt` the form
  handler applies to the typed text. It skips leading ECMAScript white
  space, reads an optional sign, switches to hexadecimal after `0x`/`0X`, and
  reads the longest run of digits. Proved: every integer's decimal numeral
  parses back to that integer. It still does so when trailing text follows,
  provided that text does not start with a digit (`"5" + "3"` reads as 53)
  and, after the numeral `0`, does not start with `x` or `X` (which would
  make a hex prefix). So `"50.7"` is 50. Leading zeros and a `+` sign are
  read as well (`"07"` and `"+7"` are 7). The result is NaN exactly when no
  digit follows the optional sign (or the `0x` prefix). Leading white
  space never changes the result. Worked examples cover NaN, hexadecimal
  and trailing text.
- `game.dfy` — module `Game`: the session state as a value (`State`), its
  invariant (`Valid`), and the rules as pure functions. These are
  `validateGuess` (`Validate`), `provideHint` (`HintFor`), the tag of a
  listed guess (`TagOf`), `processGuess` (`ProcessGuess`), `handleGuess` after
  parsing (`Submit`), and the fresh state (`NewGame`). Lemmas cover one
  submission and whole sequences of submissions (`Play`).
- `session.dfy` — module `Session`: class `GameSession`. Its fields are the
  five fields of `gameState`, and its methods update them in place as the
  script does. Each method is proved to move the object exactly as
  `Game.Submit`, `Game.ProcessGuess` or `Game.NewGame` say, and to keep
  `Valid`. The function `Remaining` gives the count of attempts left.

The secret number is a parameter (a constructor or `Reset` argument in
[1,100]) rather than a `Math.random` draw.

Text such as `"50.7"` or `"12abc"` is not a format error: `parseInt`
reads its leading numeral, so it is the guess 50 or 12. The loss test is
`attempts >= maxAttempts`, as written. Under the invariant this is the same
as equality.

## Model

| member | source | states |
|---|---|---|
| `JsNumber.TrimStart` | script.js:43 | the skipped prefix is all white space and the rest does not start with white space |
| `JsNumber.DigitRunLength` | script.js:43 | the run covers digits of the radix only and stops at the first non-digit |
| `JsNumber.ParseInt` | script.js:43 | after white space and an optional sign, the result is a number exactly when a decimal digit follows (or, after a `0x`/`0X` prefix, a hex digit) and NaN otherwise; a negative result needs a leading `-`; its values are stated by `ParseUnsignedDigits`, `ParseNegatedDigits`, `ParsePlusDigits` and `ParseIntRoundTrip` |
| `JsNumber.ParseUnsignedDigits` | script.js:43 | any digit string, leading zeros included, followed by a non-digit reads as its value (`"07"` is 7) |
| `JsNumber.ParseNegatedDigits` | script.js:43 | `-` then any digit string followed by a non-digit reads as the negated value (`"-007"` is -7) |
| `JsNumber.ParsePlusDigits` | script.js:43 | `+` then any digit string followed by a non-digit reads as its value (`"+7"` is 7) |
| `JsNumber.ParseIntOfDecimal` | script.js:43 | an integer's numeral followed by a non-digit (and, after `0`, not `x`/`X`) parses to that integer |
| `JsNumber.ParseIntRoundTrip` | script.js:43 | `parseInt` of the decimal numeral of any integer gives back that integer |
| `JsNumber.ParseIntSkipsWhiteSpace` | script.js:43 | leading white space never changes what is parsed |
| `JsNumber.ParseIntWordIsNaN` | script.js:43 | `"abc"` parses to NaN |
| `JsNumber.ParseIntBareHexPrefixIsNaN` | script.js:43 | `"0x"` with no hex digit parses to NaN |
| `JsNumber.ParseIntDropsFraction` | script.js:43 | `"50.7"` parses to 50 |
| `JsNumber.ParseIntStopsAtLetter` | script.js:43 | `"42abc"` parses to 42 |
| `JsNumber.ParseIntIgnoresSurroundings` | script.js:43 | `" 42abc"` parses to 42 |
| `JsNumber.ParseIntHexExample` | script.js:43 | `"0x1A"` parses to 26 |
| `Game.NewGame` | script.js:157-163 | a fresh session is active, with no attempts, an empty history and the given secret number, and satisfies the invariant |
| `Game.Validate` | script.js:70-87 | accepts exactly a number in [1,100] not guessed before; otherwise names the first failing check: NaN, then range, then duplicate |
| `Game.HintFor` | script.js:114-126 | for a wrong guess, High exactly when the secret is below it and Low exactly when it is above |
| `Game.TagOf` | script.js:201-207 | correct exactly for the secret, high exactly above it, low exactly below it; its agreement with the hint is `TagAgreesWithHint` |
| `Game.ProcessGuess` | script.js:90-111 | one more attempt, the guess appended, secret and limit kept; a win exactly for the secret, a loss exactly for a wrong guess on the last attempt, and the session stays active only after a hint; the invariant is kept by `SubmitPreservesValid` |
| `Game.Submit` | script.js:38-48 | an inactive session answers Inactive and is unchanged; a guess is accepted exactly when the session is active and `Validate` passes it; anything not accepted leaves the state unchanged; its other properties are the lemmas below |
| `Game.RejectedGuessChangesNothing` | script.js:71-84 | NaN, out-of-range and duplicate guesses are rejected in that order, leaving the whole state unchanged |
| `Game.AcceptedGuessIsRecorded` | script.js:91-92 | an accepted guess adds exactly one attempt, appends exactly that guess, keeps the secret and the limit |
| `Game.SubmitPreservesValid` | script.js:70-111 | one submission keeps the invariant: history length = attempts <= 10, distinct entries in [1,100], active iff not won and attempts remain |
| `Game.CorrectGuessWins` | script.js:104-131 | the secret number wins even on the tenth attempt, reports the attempt count and ends the session |
| `Game.WrongGuessOutcome` | script.js:106-126 | a wrong accepted guess loses and ends the session exactly when it is the tenth; otherwise it hints and the session goes on |
| `Game.OnlyWinOrLossEndsSession` | script.js:103-111 | a submission ends the session if and only if it is a win or a loss |
| `Game.OutcomeReportsState` | script.js:129-149 | a win is reported only for the secret number, with the attempts used; a loss reveals the secret after the tenth attempt |
| `Game.TagAgreesWithHint` | script.js:201-207 | the high/low tag of a wrong guess agrees with the hint given for it |
| `Game.CorrectOnlyLast` | script.js:201-207 | in the history only the last guess can be tagged correct |
| `Game.PlayPreservesValid` | script.js:38-111 | the invariant holds after any sequence of submissions |
| `Game.AttemptsCountAccepted` | script.js:91-106 | attempts equal the accepted submissions, and at most 10 submissions are accepted in any sequence |
| `Game.FinishedStaysFinished` | script.js:41 | after a win or a loss every later submission is answered Inactive and changes nothing |
| `Game.SampleWin` | script.js:104-123 | with secret 50, guesses 25, 75, 50 give Low, High, then a win in 3 attempts |
| `Game.SampleDuplicate` | script.js:81-92 | submitting 30 twice records it once; the second submission is a duplicate |
| `Session.GameSession.constructor` | script.js:2-8 | the initial object is the fresh session for the given secret and satisfies the invariant |
| `Session.GameSession.Reset` | script.js:157-163 | every field is replaced by the fresh session for the new secret |
| `Session.GameSession.HandleGuess` | script.js:38-48 | parses the text and moves the object exactly as `Game.Submit` says, keeping the invariant |
| `Session.GameSession.ProcessGuess` | script.js:90-111 | counts the attempt, appends the guess, then wins, loses or hints exactly as `Game.ProcessGuess` says |
| `Session.GameSession.Remaining` | script.js:179 | the remaining count is between 0 and 10, adds up with attempts to 10, and is positive while the session is active |

## Left out

- Page I/O: element lookups, event listeners, `handleKeyPress`, focus, enabling and disabling controls, styles, and the `showFeedback` message text and animation (script.js:11-35, 63-67, 94-100, 132-134, 150-152, 165-173, 183-191). The outcome value tells the page what to display.
- `handleInput` (script.js:51-60): it enables the submit button live. It uses JavaScript's string-to-number coercion, which is floating-point semantics and outside the state machine.
- `createConfetti` (script.js:213-233): it uses timers and random floats for a visual effect only.
- `Math.random` (script.js:3, 158): the secret number is a parameter, required to be in [1,100].
- The `console.log` lines (script.js:239-240) and the DOM query that marks the winning entry (script.js:140-143).
- `JsNumber.ParseInt` gives an exact integer where JavaScript gives a double. This changes no outcome: a numeral whose value is above 100 or below 1 still rounds to a double outside [1,100], and inside that range doubles are exact.
- `JsNumber.ParseInt` reads Dafny characters (Unicode scalar values) where JavaScript reads UTF-16 code units. All white space, signs and digits are single code units, so the result is the same for every string Dafny can represent.
- The page's HTML is not part of this model, so the typed text is taken to be any string. A browser may restrict it further.
- `resetGame` builds a new object and rebinds `gameState`. `Session.GameSession.Reset` overwrites every field of the one object instead. Nothing else holds a reference to the old object, so the effect is the same.
