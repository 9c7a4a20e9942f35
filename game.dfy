/**
 * The rules of one guess-the-number session (script.js), as pure
 * functions over the value of the session state. The class in module
 * Session keeps this state in mutable fields and is proved to follow
 * these functions step by step.
 *
 * The secret number is a parameter: where the page draws it with
 * `Math.random`, the model takes any value in [1,100].
 */
module Game {
  import opened Wrappers

  /** The inclusive range of numbers the player may guess (script.js:76). */
  const Lowest := 1
  const Highest := 100
  /** The number of accepted guesses a session allows (script.js:5). */
  const MaxAttempts := 10

  predicate InRange(g: int)
  {
    Lowest <= g <= Highest
  }

  /** The direction a hint points the player away from (script.js:117-123). */
  datatype Direction = High | Low

  /** The class an accepted guess is shown with in the history list (script.js:201-207). */
  datatype Tag = Correct | TooHigh | TooLow

  /** Why `validateGuess` turns a guess down, in the order it checks (script.js:71-84). */
  datatype Rejection = NotANumber | OutOfRange | Duplicate

  /** What one submission of the guess form leads to. */
  datatype Outcome =
    | Inactive
    | Rejected(reason: Rejection)
    | Hint(direction: Direction)
    | Won(attempts: nat)
    | Lost(target: int)
  {
    /** The guess was recorded and consumed an attempt. */
    predicate Accepted()
    {
      Hint? || Won? || Lost?
    }
  }

  /** The five fields of `gameState` (script.js:2-8). */
  datatype State = State(
    target: int,
    attempts: nat,
    maxAttempts: nat,
    history: seq<int>,
    active: bool)

  ghost predicate Distinct(s: seq<int>)
  {
    forall i, j :: 0 <= i < j < |s| ==> s[i] != s[j]
  }

  /**
   * The invariant of a session: one history entry per attempt, at most
   * `MaxAttempts` of them, distinct and in range; the secret number can
   * only be the last entry; and the session is active exactly when the
   * secret number has not been guessed and attempts remain.
   */
  ghost predicate Valid(s: State)
  {
    InRange(s.target) &&
    s.maxAttempts == MaxAttempts &&
    |s.history| == s.attempts <= s.maxAttempts &&
    Distinct(s.history) &&
    (forall i :: 0 <= i < |s.history| ==> InRange(s.history[i])) &&
    (forall i :: 0 <= i < |s.history| - 1 ==> s.history[i] != s.target) &&
    (s.active <==> s.target !in s.history && s.attempts < s.maxAttempts)
  }

  /** The state `resetGame` installs, and the one the page starts with (script.js:2-8, 157-163). */
  function NewGame(target: int): (s: State)
    requires InRange(target)
    ensures Valid(s)
    ensures s.active && s.attempts == 0 && s.history == [] && s.target == target
  {
    State(target, 0, MaxAttempts, [], true)
  }

  /**
   * `validateGuess` (script.js:70-87): `None` when the guess is accepted,
   * otherwise the first check it fails.
   */
  function Validate(guess: Option<int>, history: seq<int>): (r: Option<Rejection>)
    ensures r == None <==> guess.Some? && InRange(guess.value) && guess.value !in history
    ensures r == Some(NotANumber) <==> guess.None?
    ensures r == Some(OutOfRange) <==> guess.Some? && !InRange(guess.value)
    ensures r == Some(Duplicate) <==> guess.Some? && InRange(guess.value) && guess.value in history
  {
    match guess
    case None => Some(NotANumber)
    case Some(g) =>
      if !InRange(g) then Some(OutOfRange)
      else if g in history then Some(Duplicate)
      else None
  }

  /** The hint `provideHint` gives for a wrong guess (script.js:117-123). */
  function HintFor(guess: int, target: int): (d: Direction)
    ensures guess != target ==> (d == High <==> target < guess) && (d == Low <==> target > guess)
  {
    if guess > target then High else Low
  }

  /** The class `addGuessToDisplay` gives an accepted guess (script.js:201-207). */
  function TagOf(guess: int, target: int): (t: Tag)
    ensures t == Correct <==> guess == target
    ensures t == TooHigh <==> guess > target
    ensures t == TooLow <==> guess < target
  {
    if guess == target then Correct
    else if guess > target then TooHigh
    else TooLow
  }

  /**
   * `processGuess` and what it calls (script.js:90-111, 130, 148): record
   * the guess, then decide win before loss before hint.
   */
  function ProcessGuess(s: State, guess: int): (r: (State, Outcome))
    ensures r.0.attempts == s.attempts + 1 && r.0.history == s.history + [guess]
    ensures r.0.target == s.target && r.0.maxAttempts == s.maxAttempts
    ensures r.1.Accepted()
    ensures r.1.Won? <==> guess == s.target
    ensures r.1.Lost? <==> guess != s.target && s.attempts + 1 >= s.maxAttempts
    ensures r.0.active <==> s.active && r.1.Hint?
  {
    var s' := s.(attempts := s.attempts + 1, history := s.history + [guess]);
    if guess == s'.target then (s'.(active := false), Won(s'.attempts))
    else if s'.attempts >= s'.maxAttempts then (s'.(active := false), Lost(s'.target))
    else (s', Hint(HintFor(guess, s'.target)))
  }

  /** `handleGuess` once the input has been parsed (script.js:38-48). */
  function Submit(s: State, guess: Option<int>): (r: (State, Outcome))
    ensures !s.active ==> r == (s, Inactive)
    ensures r.1.Accepted() <==> s.active && Validate(guess, s.history).None?
    ensures !r.1.Accepted() ==> r.0 == s
  {
    if !s.active then (s, Inactive)
    else match Validate(guess, s.history)
      case Some(why) => (s, Rejected(why))
      case None => ProcessGuess(s, guess.value)
  }

  // ----- One submission -----

  /**
   * NaN, then out of range, then duplicate: the first failing check is
   * reported and the state, attempts and history included, is unchanged.
   */
  lemma RejectedGuessChangesNothing(s: State, guess: Option<int>)
    requires s.active
    ensures guess.None? ==> Submit(s, guess) == (s, Rejected(NotANumber))
    ensures guess.Some? && !InRange(guess.value) ==> Submit(s, guess) == (s, Rejected(OutOfRange))
    ensures guess.Some? && InRange(guess.value) && guess.value in s.history ==>
              Submit(s, guess) == (s, Rejected(Duplicate))
  {
  }

  /**
   * An accepted guess consumes exactly one attempt, is appended to the
   * end of the history, and leaves the secret number and the limit alone.
   */
  lemma AcceptedGuessIsRecorded(s: State, g: int)
    requires s.active && InRange(g) && g !in s.history
    ensures Submit(s, Some(g)).0.attempts == s.attempts + 1
    ensures Submit(s, Some(g)).0.history == s.history + [g]
    ensures Submit(s, Some(g)).0.target == s.target
    ensures Submit(s, Some(g)).0.maxAttempts == s.maxAttempts
    ensures Submit(s, Some(g)).1.Accepted()
  {
  }

  /** Every submission keeps the session invariant. */
  lemma SubmitPreservesValid(s: State, guess: Option<int>)
    requires Valid(s)
    ensures Valid(Submit(s, guess).0)
  {
  }

  /**
   * Guessing the secret number always wins, even on the last attempt,
   * because the win is decided before the limit; the session ends and
   * the outcome reports the attempts used.
   */
  lemma CorrectGuessWins(s: State)
    requires Valid(s) && s.active
    ensures Submit(s, Some(s.target)).1 == Won(s.attempts + 1)
    ensures !Submit(s, Some(s.target)).0.active
  {
  }

  /**
   * A wrong accepted guess loses, ends the session and reveals the secret
   * number exactly when it uses the last attempt; otherwise it gives the
   * hint and the session goes on.
   */
  lemma WrongGuessOutcome(s: State, g: int)
    requires Valid(s) && s.active && InRange(g) && g !in s.history && g != s.target
    ensures s.attempts + 1 == MaxAttempts ==>
              Submit(s, Some(g)).1 == Lost(s.target) && !Submit(s, Some(g)).0.active
    ensures s.attempts + 1 < MaxAttempts ==>
              Submit(s, Some(g)).1 == Hint(HintFor(g, s.target)) && Submit(s, Some(g)).0.active
  {
  }

  /** A session stops being active only by a win or a loss, and both stop it. */
  lemma OnlyWinOrLossEndsSession(s: State, guess: Option<int>)
    requires Valid(s)
    ensures s.active && !Submit(s, guess).0.active <==> Submit(s, guess).1.Won? || Submit(s, guess).1.Lost?
  {
  }

  /** The outcomes report only true facts: the attempts of a win, the secret number of a loss. */
  lemma OutcomeReportsState(s: State, guess: Option<int>)
    requires Valid(s)
    ensures Submit(s, guess).1.Won? ==>
              guess == Some(s.target) && Submit(s, guess).1.attempts == Submit(s, guess).0.attempts
    ensures Submit(s, guess).1.Lost? ==>
              Submit(s, guess).1.target == s.target && Submit(s, guess).0.attempts == MaxAttempts
  {
  }

  // ----- Hints and tags -----

  /** The tag of a wrong guess agrees with the hint given for it. */
  lemma TagAgreesWithHint(guess: int, target: int)
    ensures guess != target ==> (TagOf(guess, target) == TooHigh <==> HintFor(guess, target) == High)
    ensures guess != target ==> (TagOf(guess, target) == TooLow <==> HintFor(guess, target) == Low)
  {
  }

  /** In the history list only the last guess can be tagged Correct. */
  lemma CorrectOnlyLast(s: State, i: int)
    requires Valid(s) && 0 <= i < |s.history| - 1
    ensures TagOf(s.history[i], s.target) != Correct
  {
  }

  // ----- A sequence of submissions -----

  /** Submitting each input in turn, collecting the outcomes. */
  function Play(s: State, guesses: seq<Option<int>>): (State, seq<Outcome>)
    decreases |guesses|
  {
    if guesses == [] then (s, [])
    else
      var (s', o) := Submit(s, guesses[0]);
      var (s'', os) := Play(s', guesses[1..]);
      (s'', [o] + os)
  }

  function CountAccepted(outcomes: seq<Outcome>): nat
  {
    if outcomes == [] then 0
    else (if outcomes[0].Accepted() then 1 else 0) + CountAccepted(outcomes[1..])
  }

  /** The invariant holds after any sequence of submissions. */
  lemma {:induction false} PlayPreservesValid(s: State, guesses: seq<Option<int>>)
    requires Valid(s)
    ensures Valid(Play(s, guesses).0)
    decreases |guesses|
  {
    if guesses != [] {
      SubmitPreservesValid(s, guesses[0]);
      PlayPreservesValid(Submit(s, guesses[0]).0, guesses[1..]);
    }
  }

  /**
   * Attempts count exactly the accepted submissions, so however many
   * inputs are submitted to a session, at most `MaxAttempts` are accepted.
   */
  lemma {:induction false} AttemptsCountAccepted(s: State, guesses: seq<Option<int>>)
    requires Valid(s)
    ensures Play(s, guesses).0.attempts == s.attempts + CountAccepted(Play(s, guesses).1)
    ensures s.attempts + CountAccepted(Play(s, guesses).1) <= MaxAttempts
    decreases |guesses|
  {
    if guesses != [] {
      var (s', o) := Submit(s, guesses[0]);
      SubmitPreservesValid(s, guesses[0]);
      AttemptsCountAccepted(s', guesses[1..]);
      var os := Play(s', guesses[1..]).1;
      assert ([o] + os)[1..] == os;
    }
    PlayPreservesValid(s, guesses);
  }

  /** Once finished, a session answers every later submission with Inactive. */
  lemma {:induction false} FinishedStaysFinished(s: State, guesses: seq<Option<int>>)
    requires !s.active
    ensures Play(s, guesses).0 == s
    ensures forall k :: 0 <= k < |Play(s, guesses).1| ==> Play(s, guesses).1[k] == Inactive
    ensures |Play(s, guesses).1| == |guesses|
    decreases |guesses|
  {
    if guesses != [] {
      FinishedStaysFinished(s, guesses[1..]);
    }
  }

  // ----- Sample sessions -----

  /** Secret 50: 25 is too low, 75 too high, 50 wins on the third attempt. */
  lemma SampleWin()
    ensures Play(NewGame(50), [Some(25), Some(75), Some(50)]).1 == [Hint(Low), Hint(High), Won(3)]
    ensures !Play(NewGame(50), [Some(25), Some(75), Some(50)]).0.active
  {
  }

  /** The same number twice: the second submission is a duplicate and costs nothing. */
  lemma SampleDuplicate()
    ensures Play(NewGame(50), [Some(30), Some(30)]).1 == [Hint(Low), Rejected(Duplicate)]
    ensures Play(NewGame(50), [Some(30), Some(30)]).0.attempts == 1
  {
  }
}
