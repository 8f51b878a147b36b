# number_game: the guessing-game controller, verified

The repository is a browser number-guessing game. All of its logic is the game
session held on the singleton `game` object in `app.js`:
- a secret in [1,100];
- ten attempts;
- a score that counts the attempts used;
- a three-valued state (`playing`, `won`, `lost`);
- a best-score record kept in `localStorage`.

This project models that controller in Dafny. It has six modules, one file each:

- `Wrappers` (`wrappers.dfy`): `Option`, standing for a JavaScript value that may be `null` (or, for a parsed number, `NaN`).
- `JsText` (`js_text.dfy`): the JavaScript built-ins the game relies on.
  - `String.prototype.trim`.
  - `parseInt` without a radix. The model covers leading whitespace, the sign, the `0x`/`0X` hexadecimal prefix and the longest digit prefix. The hexadecimal prefix *is* modelled, so `"0x32"` is a guess of 50.
  - `Number.prototype.toString` on integers.
  - Lemmas state what each of these does. They include the decimal round trip and the rule that parsing stops at the first non-digit (`"50abc"` reads as 50, `"7.9"` as 7).
- `Rules` (`rules.dfy`):
  - the state enum;
  - `validateInput`'s `isValid`;
  - `makeGuess`'s reading of the input, proved to accept exactly what `isValid` accepts;
  - the direction and closeness of a wrong guess, with buckets at 5 and 10.
- `BestScore` (`best_score.dfy`): the record and its storage format.
  - The record is `NoRecord | Record(n) | NaN`. NaN is needed because `loadBestScore` calls `parseInt` on any non-empty saved text.
  - It also holds the strict "less than" rule of `checkAndUpdateBestScore`, and the text that `saveBestScore` writes and `loadBestScore` reads back.
- `Session` (`session.dfy`): the controller as a value.
  - `Step` is one `makeGuess` call, mapping the old fields to the new fields and the outcome shown.
  - `Run` is a sequence of calls.
  - Lemmas: the attempt accounting, the win/loss/hint branching, at most ten accepted guesses per game, terminal states, ten misses losing, and the record never rising.
- `Controller` (`controller.dfy`): the imperative model.
  - `class Game` has the fields of `game`, and its methods update them in place as `app.js` does.
  - The entry points `Init`, `StartNewGame`, `RestartGame` and `MakeGuess` are proved to follow `Session` (`MakeGuess` ensures `(Model(), out) == Step(old(Model()), raw)`) and to keep the invariant `Valid()`:
    - `currentScore + attemptsLeft == maxAttempts`;
    - `0 <= attemptsLeft <= 10`;
    - `playing` implies an attempt is left.
  - The `handle*` and storage helpers that `makeGuess` and `init` call are specified field by field. The `handle*` helpers run in the middle of a guess, after `attemptsLeft--` and before `gameState` is set, where `Valid()` need not hold.
  - `class LocalStorage` stands for `window.localStorage`: text items by key, plus an `available` flag. When the flag is false, `getItem`/`setItem` throw, and the game's `try/catch` swallows the exception.

Nondeterminism and the browser are parameters.
- `Math.random()` becomes the `secret` argument of `StartNewGame`, `RestartGame` and `Init`, with `1 <= secret <= 100`.
- The text of the input field is the `raw` argument of `MakeGuess`.
- What `showMessage` would display is the returned `Outcome`: `Invalid`, `NotPlaying`, `Hint(direction, closeness, attemptsLeft)`, `Win(secret, score, isNewRecord)` or `Loss(secret)`.

## Model

| member | source | states |
|---|---|---|
| `JsText.TrimStartSpec` | app.js:97 | the leading part `trim` drops is whitespace, and what remains is a suffix of the input that does not start with whitespace |
| `JsText.TrimEndSpec` | app.js:97 | the trailing part `trim` drops is whitespace, and what remains is a prefix of the input that does not end with whitespace |
| `JsText.TrimSpec` | app.js:65 | `trim` returns a middle slice of the input: everything cut at either end is whitespace, and the result neither starts nor ends with whitespace |
| `JsText.DigitPrefixSpec` | app.js:98 | the digit run `parseInt` reads is the longest prefix of digits of the radix: every character in it is a digit and the next one is not |
| `JsText.NatToDecimalSpec` | app.js:304 | `toString` of a non-negative integer is a non-empty string of decimal digits, with no leading zero, whose value is the number |
| `JsText.ParseIntOfNumberString` | app.js:98 | `parseInt` of a number's decimal text followed by anything that does not start with a digit gives that number (so `"50abc"` is 50), except that `"0"` followed by `x`/`X` is a hexadecimal prefix |
| `JsText.NumberStringRoundTrip` | app.js:293-304 | `parseInt(n.toString()) == n` for every integer n |
| `JsText.NaNStringRoundTrip` | app.js:293 | `parseInt("NaN")` is NaN, so a NaN record reads back as NaN |
| `JsText.ParseIntNaNExamples` | app.js:98-100 | `""`, `"abc"` and `"0x"` parse to NaN |
| `JsText.ParseIntPrefixExamples` | app.js:98 | `"50abc"` parses to 50 and `"7.9"` to 7 |
| `JsText.ParseIntSignAndHexExamples` | app.js:98 | `" -5"` parses to -5 and `"0x1A"` to 26 |
| `Rules.ReadGuess` | app.js:97-104 | `makeGuess` rejects an input (empty after trimming, NaN, below 1, above 100) exactly when `validateInput`'s `isValid` is false; an accepted guess is the parsed number, in [1,100] |
| `Rules.EmptyTestIsRedundant` | app.js:100 | the emptiness test changes no verdict, because an empty string already parses to NaN |
| `Rules.DecimalIsValidGuess` | app.js:65-67 | a number in [1,100], padded with whitespace and followed by text that starts with neither a digit nor whitespace, is accepted as that number |
| `Rules.ClosenessBands` | app.js:150-170 | very close is within 5 of the secret, warm is 6 to 10 away, cold is farther; "too low" exactly when the guess is at most the secret |
| `Rules.ClosenessIsSymmetric` | app.js:150-158 | guesses d above and d below the secret are equally close and point in opposite directions |
| `Rules.ClassificationExamples` | app.js:149-170 | with secret 50: 53 is very close and too high, 58 warm and too high, 20 cold and too low |
| `BestScore.AfterWin` | app.js:315-316 | after a win the record is `min(old, score)`, or the score if there was no record; a NaN record stays NaN |
| `BestScore.RecordNeverIncreases` | app.js:312-323 | the record never rises and never exceeds the winning score; a new record is reported exactly when the score becomes the record and differs from the old one, so ties are not records |
| `BestScore.RecordScenario` | app.js:315-319 | wins in 7, 9, 5, 5 attempts, starting from no record, give new, not new, new, not new |
| `BestScore.Serialized` | app.js:303-304 | `saveBestScore` writes nothing exactly when `bestScore` is null |
| `BestScore.Loaded` | app.js:292-293 | a saved text loads as null exactly when it is missing or empty |
| `BestScore.SaveLoadRoundTrip` | app.js:293-304 | any non-null record, NaN included, loads back unchanged from the text it was saved as |
| `BestScore.LoadedGarbageIsNaN` | app.js:293 | a non-empty saved text with no letter or digit loads as NaN, not as null |
| `Session.Start` | app.js:78-82 | a new game has exactly the drawn secret (in [1,100]), ten attempts, score 0 and state playing, keeps the record, and satisfies the session invariant |
| `Session.Step` | app.js:94-116 | one `makeGuess` keeps the invariant and the secret. It takes an attempt exactly when the game is in play and the input is valid, and then uses exactly one. Otherwise nothing changes, and the outcome is NotPlaying once the game is over and Invalid for bad input during play. The record never rises |
| `Session.TakeGuess` | app.js:106-116 | an accepted guess uses exactly one attempt, keeps the invariant and the secret, and never raises the record |
| `Session.AcceptedGuess` | app.js:110-116 | won exactly when the guess is the secret, even on the last attempt; lost exactly when it misses with one attempt left; otherwise playing. In each case the outcome and the new record are what the branch shows |
| `Session.Run` | app.js:42-44 | repeated `makeGuess` calls give one outcome per input, keep the secret and keep the invariant |
| `Session.AcceptedGuessesAreScored` | app.js:106-107 | over any run of calls, the number of accepted guesses equals the rise in the score |
| `Session.AtMostTenGuessesPerGame` | app.js:80-81 | after `startNewGame`, at most ten guesses are accepted, however many calls are made |
| `Session.FinishedGameIsFrozen` | app.js:95 | once won or lost, every call answers NotPlaying and changes no field |
| `Session.MissStep` | app.js:112-115 | a valid wrong guess uses one attempt and gives Loss on the last attempt, a hint before it |
| `Session.MissesUseUpTheGame` | app.js:106-116 | as many valid misses as attempts left give hints, then Loss, and end the game lost with no attempt left |
| `Session.TenMissesLose` | app.js:110-113 | ten valid misses in a fresh game lose it, the tenth with Loss |
| `Session.RecordNeverRaised` | app.js:315-316 | over any run of calls an existing record only goes down |
| `Controller.LocalStorage.GetItem` | app.js:292 | `getItem` throws when storage is unavailable and otherwise returns the stored text or null |
| `Controller.LocalStorage.SetItem` | app.js:304 | `setItem` throws when storage is unavailable and otherwise sets exactly that key |
| `Controller.Game.constructor` | app.js:1-7 | the initial object: secret 0, ten attempts, score 0, playing, no record; the invariant holds |
| `Controller.Game.Init` | app.js:17-22 | loads the record, then starts a game |
| `Controller.Game.StartNewGame` | app.js:78-92 | resets the fields to `Session.Start`, from any state including won and lost, and leaves the record alone |
| `Controller.Game.RestartGame` | app.js:235-237 | the same reset as `startNewGame` |
| `Controller.Game.MakeGuess` | app.js:94-120 | the new fields and the outcome are `Session.Step` of the old fields, and the invariant is kept. Storage changes only on a new record, when the score's text is written under the game's key |
| `Controller.Game.HandleWin` | app.js:122-138 | sets won and reports the secret, the score and whether it is a new record, with the record updated as `checkAndUpdateBestScore` does |
| `Controller.Game.HandleLoss` | app.js:140-147 | sets lost and reveals the secret |
| `Controller.Game.HandleIncorrectGuess` | app.js:149-174 | the hint says "too high" exactly when the guess exceeds the secret. It is very close exactly within 5, cold exactly beyond 10, and carries the attempts left |
| `Controller.Game.CheckAndUpdateBestScore` | app.js:312-324 | returns the strict "new record" test and sets the record to `AfterWin`. It saves the score's text only when the record is new and storage is available |
| `Controller.Game.LoadBestScore` | app.js:290-299 | the record becomes the parsed stored text, or null when storage is unavailable |
| `Controller.Game.SaveBestScore` | app.js:301-310 | writes `bestScore.toString()` under the game's key unless the record is null or storage is unavailable |
| `Controller.SaveThenLoadKeepsRecord` | app.js:290-310 | saving and then loading leaves a non-null record unchanged while storage works; a null record is not written |

## Left out

- DOM lookup and event wiring are not modelled (app.js:24-62, 327-351). This covers focus, enabling and disabling the input and buttons, the `is-invalid` class, display updates and message HTML. Their only effect kept is the returned `Outcome`.
- Clearing the input field after a guess, and the call to `validateInput` that follows it (app.js:118-119), are UI effects on the DOM and are left out.
- Animations, timers and confetti (app.js:204-211, 239-288) are `setTimeout` callbacks and `Math.random` float calls. They have no effect on the game state.
- `Math.random()` in `startNewGame` becomes a parameter. The uniformity of the draw is a statistical property and is not stated.
- `console.log` and `console.error` calls, and the emoji message texts, are left out.
- `JsText.ParseInt` works on mathematical integers, so JavaScript's `-0` is read as 0. Precision loss above 2^53 is not modelled. `NumberToString` does not produce the exponent form JavaScript uses from 1e21 up. None of these touches a guess in [1,100] or a score of 1 to 10, only oddly large saved texts.
- JavaScript strings are UTF-16 code units and Dafny strings are Unicode scalar values. Every whitespace character and digit involved is in the Basic Multilingual Plane, so `trim` and `parseInt` agree on both.
- The Enter-key handler's own `gameState` check (app.js:53) repeats `makeGuess`'s guard, which is modelled.

Three behaviours of the source that a reader may not expect:
- `makeGuess` tests the game state before it reads the input, so bad input in a finished game gives NotPlaying, not Invalid.
- "Non-numeric" input is judged by `parseInt`, so `"50abc"` and `"0x32"` are accepted.
- A saved text that is not a number loads as NaN rather than as no record. A NaN record is never beaten, since every comparison with NaN is false. So it is never replaced and never written back, and the stored text stays as it was. `saveBestScore` runs only right after a number has been stored in `bestScore` (app.js:315-317). The NaN case of `BestScore.Serialized` therefore cannot arise in the game. It is modelled because `saveBestScore` itself would write `"NaN"`.
