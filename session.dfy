/**
 * The page's single `gameState` object (script.js:2-8) as a class whose
 * methods change its fields in place, as `processGuess`, `handleWin`,
 * `handleLoss` and `resetGame` do. Each method is proved to move the
 * object exactly as the functions of module Game prescribe, and to keep
 * its invariant.
 */
module Session {
  import opened Wrappers
  import opened JsNumber
  import opened Game

  class GameSession {
    var target: int
    var attempts: nat
    var maxAttempts: nat
    var history: seq<int>
    var active: bool

    /** The fields as a value of the pure model. */
    ghost function Model(): State
      reads this
    {
      State(target, attempts, maxAttempts, history, active)
    }

    ghost predicate Valid()
      reads this
    {
      Game.Valid(Model())
    }

    /** The state the page starts with, for a secret number drawn by the caller. */
    constructor (secret: int)
      requires InRange(secret)
      ensures Valid() && Model() == NewGame(secret)
    {
      target := secret;
      attempts := 0;
      maxAttempts := MaxAttempts;
      history := [];
      active := true;
    }

    /** `resetGame`: every field is set afresh (script.js:157-163). */
    method Reset(secret: int)
      requires InRange(secret)
      modifies this
      ensures Valid() && Model() == NewGame(secret)
    {
      target := secret;
      attempts := 0;
      maxAttempts := MaxAttempts;
      history := [];
      active := true;
    }

    /**
     * `handleGuess` on the text of the guess box (script.js:38-48): nothing
     * happens in a finished session; otherwise the text is parsed and
     * validated, and an accepted guess is processed.
     */
    method HandleGuess(input: string) returns (outcome: Outcome)
      requires Valid()
      modifies this
      ensures Valid()
      ensures (Model(), outcome) == Submit(old(Model()), ParseInt(input))
    {
      SubmitPreservesValid(Model(), ParseInt(input));
      if !active {
        return Inactive;
      }
      var guess := ParseInt(input);
      var rejection := Validate(guess, history);
      if rejection.Some? {
        return Rejected(rejection.value);
      }
      outcome := ProcessGuess(guess.value);
    }

    /**
     * `processGuess` with `handleWin`, `handleLoss` and `provideHint`
     * (script.js:90-126, 130, 148): count the attempt, record the guess,
     * then win, lose or hint.
     */
    method ProcessGuess(guess: int) returns (outcome: Outcome)
      requires Valid() && active && Validate(Some(guess), history).None?
      modifies this
      ensures Valid()
      ensures (Model(), outcome) == Game.ProcessGuess(old(Model()), guess)
    {
      attempts := attempts + 1;
      history := history + [guess];
      if guess == target {
        active := false;
        outcome := Won(attempts);
      } else if attempts >= maxAttempts {
        active := false;
        outcome := Lost(target);
      } else {
        outcome := Hint(HintFor(guess, target));
      }
    }

    /**
     * The count of attempts left that `updateDisplay` shows (script.js:179):
     * never negative, and zero only once the session is over.
     */
    function Remaining(): (r: int)
      reads this
      requires Valid()
      ensures 0 <= r <= MaxAttempts
      ensures attempts + r == MaxAttempts
      ensures active ==> r > 0
    {
      maxAttempts - attempts
    }
  }
}
