/** The game-session controller as a value: the fields of `game` that the
    rules read and write, one guess as a function from the old fields to the
    new ones and the outcome shown, and a run of guesses. The class
    Controller.Game is proved to follow this model call by call. */
module Session {
  import opened JsText
  import opened Rules
  import opened BestScore

  /** game.maxAttempts. */
  const MaxAttempts := 10

  /** What makeGuess shows the player, in place of the showMessage text. */
  datatype Outcome =
    | Invalid
    | NotPlaying
    | Hint(direction: Direction, closeness: Closeness, attemptsLeft: int)
    | Win(secret: int, score: int, isNewRecord: bool)
    | Loss(secret: int)
  {
    /** The guess was taken and cost an attempt. */
    predicate Accepted() {
      Hint? || Win? || Loss?
    }
  }

  /** randomNumber, attemptsLeft, currentScore, gameState and bestScore. */
  datatype Session = Session(secret: int, attemptsLeft: int, score: int, state: State, best: BestScore)

  /** What every call keeps: the attempts stay within [0, 10], the score is
      the number of attempts used, and a game still in play has an attempt
      left. */
  predicate Inv(s: Session) {
    0 <= s.attemptsLeft <= MaxAttempts
    && s.score == MaxAttempts - s.attemptsLeft
    && (s.state == Playing ==> s.attemptsLeft > 0)
  }

  /** startNewGame with the secret it drew: every attempt back, no score,
      in play; the record is kept. */
  function Start(s: Session, secret: int): (r: Session)
    requires Lowest <= secret <= Highest
    ensures Inv(r) && r.state == Playing && r.score == 0
    ensures r.secret == secret && r.attemptsLeft == MaxAttempts
    ensures Lowest <= r.secret <= Highest && r.best == s.best
  {
    Session(secret, MaxAttempts, 0, Playing, s.best)
  }

  /** makeGuess on the raw input text: the fields afterwards and what is shown. */
  function Step(s: Session, raw: string): (r: (Session, Outcome))
    ensures Inv(s) ==> Inv(r.0)
    ensures r.0.secret == s.secret
    ensures !r.1.Accepted() ==> r.0 == s
    ensures s.state != Playing ==> r.1 == NotPlaying
    ensures s.state == Playing && !IsValidGuess(raw) ==> r.1 == Invalid
    ensures r.1.Accepted() <==> s.state == Playing && IsValidGuess(raw)
    ensures r.1.Accepted() ==> r.0.attemptsLeft == s.attemptsLeft - 1
    ensures s.best.Record? ==> r.0.best.Record? && r.0.best.attempts <= s.best.attempts
  {
    if s.state != Playing then (s, NotPlaying)
    else match ReadGuess(raw)
      case None => (s, Invalid)
      case Some(guess) => TakeGuess(s, guess)
  }

  /** The accepted-guess part of makeGuess: spend an attempt, recompute the
      score, then win, lose or give a hint. */
  function TakeGuess(s: Session, guess: int): (r: (Session, Outcome))
    requires s.state == Playing
    ensures Inv(s) ==> Inv(r.0)
    ensures r.0.secret == s.secret && r.1.Accepted()
    ensures r.0.attemptsLeft == s.attemptsLeft - 1
    ensures s.best.Record? ==> r.0.best.Record? && r.0.best.attempts <= s.best.attempts
  {
    var left := s.attemptsLeft - 1;
    var score := MaxAttempts - left;
    if guess == s.secret then
      RecordNeverIncreases(s.best, score);
      (Session(s.secret, left, score, Won, AfterWin(s.best, score)),
       Win(s.secret, score, IsNewRecord(s.best, score)))
    else if left == 0 then
      (Session(s.secret, left, score, Lost, s.best), Loss(s.secret))
    else
      (Session(s.secret, left, score, Playing, s.best),
       Hint(DirectionOf(guess, s.secret), ClosenessOf(guess, s.secret), left))
  }

  /** How an accepted guess ends the turn. The win test comes first, so a
      correct guess wins even on the last attempt; a wrong guess loses
      exactly when it used the last attempt. */
  lemma AcceptedGuess(s: Session, raw: string)
    requires Inv(s) && s.state == Playing && IsValidGuess(raw)
    ensures var (next, out) := Step(s, raw);
            var score := MaxAttempts - next.attemptsLeft;
            && (next.state == Won <==> ReadGuess(raw).value == s.secret)
            && (next.state == Lost <==> ReadGuess(raw).value != s.secret && s.attemptsLeft == 1)
            && (next.state == Playing <==> ReadGuess(raw).value != s.secret && s.attemptsLeft > 1)
            && (next.state == Won ==> out == Win(s.secret, score, IsNewRecord(s.best, score))
                                      && next.best == AfterWin(s.best, score))
            && (next.state == Lost ==> out == Loss(s.secret) && next.best == s.best)
            && (next.state == Playing ==>
                  out == Hint(DirectionOf(ReadGuess(raw).value, s.secret), ClosenessOf(ReadGuess(raw).value, s.secret),
                              next.attemptsLeft)
                  && next.best == s.best)
  {
  }

  /** makeGuess over a sequence of inputs, one call after another. */
  function Run(s: Session, raws: seq<string>): (r: (Session, seq<Outcome>))
    ensures |r.1| == |raws|
    ensures r.0.secret == s.secret
    ensures Inv(s) ==> Inv(r.0)
    decreases |raws|
  {
    if raws == [] then (s, [])
    else
      var first := Step(s, raws[0]);
      var rest := Run(first.0, raws[1..]);
      (rest.0, [first.1] + rest.1)
  }

  /** The number of outcomes that took an attempt. */
  function CountAccepted(outs: seq<Outcome>): (n: nat)
    ensures n <= |outs|
  {
    if outs == [] then 0
    else (if outs[0].Accepted() then 1 else 0) + CountAccepted(outs[1..])
  }

  /** Every accepted guess is one attempt used: the score grows by exactly
      the number of accepted guesses. */
  lemma {:induction false} AcceptedGuessesAreScored(s: Session, raws: seq<string>)
    requires Inv(s)
    ensures CountAccepted(Run(s, raws).1) == Run(s, raws).0.score - s.score
    decreases |raws|
  {
    if raws != [] {
      var (next, out) := Step(s, raws[0]);
      AcceptedGuessesAreScored(next, raws[1..]);
      assert Run(s, raws).1[1..] == Run(next, raws[1..]).1;
    }
  }

  /** However many times makeGuess is called after startNewGame, at most
      ten guesses are taken. */
  lemma AtMostTenGuessesPerGame(s: Session, secret: int, raws: seq<string>)
    requires Lowest <= secret <= Highest
    ensures CountAccepted(Run(Start(s, secret), raws).1) <= MaxAttempts
  {
    AcceptedGuessesAreScored(Start(s, secret), raws);
  }

  /** Won and Lost are final: makeGuess then changes nothing and reports
      NotPlaying, until a new game is started. */
  lemma {:induction false} FinishedGameIsFrozen(s: Session, raws: seq<string>)
    requires s.state != Playing
    ensures Run(s, raws).0 == s
    ensures forall i :: 0 <= i < |raws| ==> Run(s, raws).1[i] == NotPlaying
  {
    if raws != [] {
      FinishedGameIsFrozen(s, raws[1..]);
    }
  }

  /** Every input is a valid guess that misses the secret. */
  predicate AllMisses(raws: seq<string>, secret: int) {
    forall i :: 0 <= i < |raws| ==> ReadGuess(raws[i]).Some? && ReadGuess(raws[i]).value != secret
  }

  /** One wrong guess in play: one attempt fewer, and Loss exactly on the last one. */
  lemma MissStep(s: Session, raw: string)
    requires Inv(s) && s.state == Playing && ReadGuess(raw).Some? && ReadGuess(raw).value != s.secret
    ensures Step(s, raw).0.attemptsLeft == s.attemptsLeft - 1
    ensures Step(s, raw).0.state == if s.attemptsLeft == 1 then Lost else Playing
    ensures if s.attemptsLeft == 1 then Step(s, raw).1 == Loss(s.secret) else Step(s, raw).1.Hint?
  {
    AcceptedGuess(s, raw);
  }

  lemma AllMissesTail(raws: seq<string>, secret: int)
    requires raws != [] && AllMisses(raws, secret)
    ensures AllMisses(raws[1..], secret)
  {
    forall i | 0 <= i < |raws| - 1
      ensures ReadGuess(raws[1..][i]).Some? && ReadGuess(raws[1..][i]).value != secret
    {
      assert raws[1..][i] == raws[i + 1];
    }
  }

  /** As many misses as there are attempts left: hints for all but the last,
      then Loss, and the game ends lost with no attempt left. */
  lemma {:induction false} MissesUseUpTheGame(s: Session, raws: seq<string>)
    requires Inv(s) && s.state == Playing
    requires |raws| == s.attemptsLeft && AllMisses(raws, s.secret)
    ensures Run(s, raws).0.state == Lost && Run(s, raws).0.attemptsLeft == 0
    ensures Run(s, raws).1[|raws| - 1] == Loss(s.secret)
    ensures forall i :: 0 <= i < |raws| - 1 ==> Run(s, raws).1[i].Hint?
    decreases |raws|
  {
    var first := Step(s, raws[0]);
    MissStep(s, raws[0]);
    var rest := Run(first.0, raws[1..]);
    var outs := Run(s, raws).1;
    assert outs == [first.1] + rest.1;
    if |raws| > 1 {
      AllMissesTail(raws, s.secret);
      MissesUseUpTheGame(first.0, raws[1..]);
      assert forall i :: 0 <= i < |raws| - 1 ==> outs[i].Hint? by {
        forall i | 0 <= i < |raws| - 1 ensures outs[i].Hint? {
          if i > 0 {
            assert outs[i] == rest.1[i - 1];
          }
        }
      }
    } else {
      assert raws[1..] == [];
    }
  }

  /** Ten wrong guesses in a fresh game lose it, the tenth with Loss. */
  lemma TenMissesLose(s: Session, secret: int, raws: seq<string>)
    requires Lowest <= secret <= Highest
    requires |raws| == MaxAttempts && AllMisses(raws, secret)
    ensures Run(Start(s, secret), raws).0.state == Lost
    ensures Run(Start(s, secret), raws).1[MaxAttempts - 1] == Loss(secret)
  {
    MissesUseUpTheGame(Start(s, secret), raws);
  }

  /** Over any run of guesses an existing record only goes down. */
  lemma {:induction false} RecordNeverRaised(s: Session, raws: seq<string>)
    requires s.best.Record?
    ensures Run(s, raws).0.best.Record? && Run(s, raws).0.best.attempts <= s.best.attempts
    decreases |raws|
  {
    if raws != [] {
      RecordNeverRaised(Step(s, raws[0]).0, raws[1..]);
    }
  }
}
