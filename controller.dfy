/** The singleton `game` object of app.js as a class whose methods update its
    fields in place, and the browser's localStorage it keeps the record in.
    Each method is proved to follow the value model of module Session. */
module Controller {
  import opened Wrappers
  import opened JsText
  import opened Rules
  import opened BestScore
  import opened Session

  /** window.localStorage: text items by key. While `available` is false,
      getItem and setItem throw (storage disabled or blocked). One flag is
      enough: no game method calls both, and a caller may change
      `available` between calls, so a store whose reads work but whose
      writes fail (a full quota) is that flag set differently per call. */
  class LocalStorage {
    var items: map<string, string>
    var available: bool

    constructor (items: map<string, string>, available: bool)
      ensures this.items == items && this.available == available
    {
      this.items := items;
      this.available := available;
    }

    /** The text stored under key, None when there is none. */
    function Item(key: string): (r: Option<string>)
      reads this
    {
      if key in items then Some(items[key]) else None
    }

    /** localStorage.getItem(key); threw stands for the exception. */
    method GetItem(key: string) returns (threw: bool, r: Option<string>)
      ensures threw == !available
      ensures !threw ==> r == Item(key)
    {
      threw := !available;
      r := if threw then None else Item(key);
    }

    /** localStorage.setItem(key, value); nothing is stored when it throws. */
    method SetItem(key: string, value: string) returns (threw: bool)
      modifies this`items
      ensures threw == !available
      ensures items == if threw then old(items) else old(items)[key := value]
    {
      threw := !available;
      if !threw {
        items := items[key := value];
      }
    }
  }

  class Game {
    var randomNumber: int
    const maxAttempts: int := MaxAttempts
    var attemptsLeft: int
    var currentScore: int
    var gameState: State
    var bestScore: BestScore
    const storage: LocalStorage

    /** The fields the rules are about, as a value. */
    ghost function Model(): (r: Session)
      reads this
    {
      Session(randomNumber, attemptsLeft, currentScore, gameState, bestScore)
    }

    ghost predicate Valid()
      reads this
    {
      Inv(Model())
    }

    /** The object literal: no secret drawn yet, ten attempts, no record. */
    constructor (storage: LocalStorage)
      ensures Valid() && this.storage == storage
      ensures Model() == Session(0, MaxAttempts, 0, Playing, NoRecord)
    {
      randomNumber := 0;
      attemptsLeft := 10;
      currentScore := 0;
      gameState := Playing;
      bestScore := NoRecord;
      this.storage := storage;
    }

    /** init with the DOM wiring left out: load the record, start a game. */
    method Init(secret: int)
      requires Valid() && Lowest <= secret <= Highest
      modifies this
      ensures Valid()
      ensures Model() == Start(old(Model()).(best := LoadedFrom(storage)), secret)
    {
      LoadBestScore();
      StartNewGame(secret);
    }

    /** What loadBestScore sets bestScore to. */
    ghost function LoadedFrom(store: LocalStorage): (r: BestScore)
      reads store
    {
      if store.available then Loaded(store.Item(StorageKey)) else NoRecord
    }

    /** startNewGame, with the secret Math.random would have drawn. */
    method StartNewGame(secret: int)
      requires Lowest <= secret <= Highest
      modifies this
      ensures Valid()
      ensures Model() == Start(old(Model()), secret)
    {
      randomNumber := secret;
      attemptsLeft := maxAttempts;
      currentScore := 0;
      gameState := Playing;
    }

    /** restartGame: the restart button starts a new game. */
    method RestartGame(secret: int)
      requires Lowest <= secret <= Highest
      modifies this
      ensures Valid()
      ensures Model() == Start(old(Model()), secret)
    {
      StartNewGame(secret);
    }

    /** makeGuess on the text of the input field. */
    method MakeGuess(raw: string) returns (out: Outcome)
      requires Valid()
      modifies this, storage`items
      ensures Valid()
      ensures (Model(), out) == Step(old(Model()), raw)
      ensures storage.items == if out.Win? && out.isNewRecord && storage.available
                               then old(storage.items)[StorageKey := NumberToString(out.score)]
                               else old(storage.items)
    {
      ghost var before := Model();
      if gameState != Playing {
        assert Step(before, raw) == (before, NotPlaying);
        return NotPlaying;
      }
      var guess := ReadGuess(raw);
      if guess.None? {
        return Invalid;
      }
      attemptsLeft := attemptsLeft - 1;
      currentScore := maxAttempts - attemptsLeft;
      if guess.value == randomNumber {
        out := HandleWin();
      } else if attemptsLeft == 0 {
        out := HandleLoss();
      } else {
        out := HandleIncorrectGuess(guess.value);
      }
      assert (Model(), out) == TakeGuess(before, guess.value);
    }

    /** handleWin: the game is won and the record is checked. */
    method HandleWin() returns (out: Outcome)
      modifies this`gameState, this`bestScore, storage`items
      ensures gameState == Won
      ensures out == Win(randomNumber, currentScore, IsNewRecord(old(bestScore), currentScore))
      ensures bestScore == AfterWin(old(bestScore), currentScore)
      ensures storage.items == if out.isNewRecord && storage.available
                               then old(storage.items)[StorageKey := NumberToString(currentScore)]
                               else old(storage.items)
    {
      gameState := Won;
      var isNewRecord := CheckAndUpdateBestScore();
      out := Win(randomNumber, currentScore, isNewRecord);
    }

    /** handleLoss: the game is lost and the secret revealed. */
    method HandleLoss() returns (out: Outcome)
      modifies this`gameState
      ensures gameState == Lost && out == Loss(randomNumber)
    {
      gameState := Lost;
      out := Loss(randomNumber);
    }

    /** handleIncorrectGuess: the hint for a wrong guess; no field changes. */
    method HandleIncorrectGuess(guess: int) returns (out: Outcome)
      ensures out.Hint? && out.attemptsLeft == attemptsLeft
      ensures out.direction == TooHigh <==> guess > randomNumber
      ensures out.closeness == VeryClose <==> Abs(guess - randomNumber) <= 5
      ensures out.closeness == Cold <==> Abs(guess - randomNumber) > 10
    {
      out := Hint(DirectionOf(guess, randomNumber), ClosenessOf(guess, randomNumber), attemptsLeft);
    }

    /** checkAndUpdateBestScore: a strictly lower score (or a first win)
        becomes the record and is saved. */
    method CheckAndUpdateBestScore() returns (isNewRecord: bool)
      modifies this`bestScore, storage`items
      ensures isNewRecord == IsNewRecord(old(bestScore), currentScore)
      ensures bestScore == AfterWin(old(bestScore), currentScore)
      ensures storage.items == if isNewRecord && storage.available
                               then old(storage.items)[StorageKey := NumberToString(currentScore)]
                               else old(storage.items)
    {
      isNewRecord := false;
      if bestScore.NoRecord? || (bestScore.Record? && currentScore < bestScore.attempts) {
        bestScore := Record(currentScore);
        SaveBestScore();
        isNewRecord := true;
      }
    }

    /** loadBestScore: read the record; a storage failure reads as null. */
    method LoadBestScore()
      modifies this`bestScore
      ensures bestScore == LoadedFrom(storage)
    {
      var threw, saved := storage.GetItem(StorageKey);
      if threw {
        bestScore := NoRecord;
      } else {
        bestScore := Loaded(saved);
      }
    }

    /** saveBestScore: store bestScore.toString() unless bestScore is null;
        a storage failure stores nothing. */
    method SaveBestScore()
      modifies storage`items
      ensures storage.items == if storage.available && Serialized(bestScore).Some?
                               then old(storage.items)[StorageKey := Serialized(bestScore).value]
                               else old(storage.items)
    {
      if bestScore != NoRecord {
        var text := Serialized(bestScore).value;
        var _ := storage.SetItem(StorageKey, text);
      }
    }
  }

  /** Saving the record and loading it back leaves the record as it was
      while the storage works. A null record is not written, so loading then
      reads whatever was stored before; without storage the load is null. */
  method SaveThenLoadKeepsRecord(g: Game)
    modifies g`bestScore, g.storage`items
    ensures g.storage.available && old(g.bestScore) != NoRecord ==> g.bestScore == old(g.bestScore)
    ensures old(g.bestScore) == NoRecord ==>
              g.storage.items == old(g.storage.items) && g.bestScore == g.LoadedFrom(g.storage)
    ensures !g.storage.available ==> g.bestScore == NoRecord && g.storage.items == old(g.storage.items)
  {
    g.SaveBestScore();
    if g.bestScore != NoRecord && g.storage.available {
      SaveLoadRoundTrip(g.bestScore);
    }
    g.LoadBestScore();
  }
}
