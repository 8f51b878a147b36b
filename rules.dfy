/** The pure rules of one round: which raw inputs count as guesses, and how
    a wrong guess is described to the player (app.js, validateInput,
    makeGuess and handleIncorrectGuess). */
module Rules {
  import opened Wrappers
  import opened JsText

  /** gameState: 'playing', 'won' or 'lost'. */
  datatype State = Playing | Won | Lost

  /** "Too high!" or "Too low!". */
  datatype Direction = TooHigh | TooLow

  /** "You're very close!", "Getting warmer!" or "Keep trying!". */
  datatype Closeness = VeryClose | Warm | Cold

  /** The range of both the secret and an acceptable guess. */
  const Lowest := 1
  const Highest := 100

  function Abs(x: int): (r: nat)
    ensures r == x || r == -x
  {
    if x < 0 then -x else x
  }

  /** validateInput's isValid: the trimmed input is non-empty and parses to
      a number in [1,100]. */
  predicate IsValidGuess(raw: string) {
    var value := Trim(raw);
    var n := ParseInt(value);
    value != "" && n.Some? && Lowest <= n.value <= Highest
  }

  /** makeGuess's reading of the input field: the parsed guess, or None
      when its rejection test (empty, NaN, below 1, above 100) fires. It
      accepts exactly what validateInput calls valid, so the enabled button
      and the attempt accounting agree. */
  function ReadGuess(raw: string): (r: Option<int>)
    ensures r.Some? <==> IsValidGuess(raw)
    ensures r.Some? ==> Lowest <= r.value <= Highest && ParseInt(Trim(raw)) == r
  {
    var guessValue := Trim(raw);
    var guess := ParseInt(guessValue);
    if guessValue == "" || guess.None? || guess.value < Lowest || guess.value > Highest then None
    else guess
  }

  /** An empty trimmed input also parses to NaN: the emptiness test in
      both predicates never changes their verdict. */
  lemma EmptyTestIsRedundant(raw: string)
    ensures IsValidGuess(raw) <==> (ParseInt(Trim(raw)).Some? && Lowest <= ParseInt(Trim(raw)).value <= Highest)
  {
    if Trim(raw) == "" {
      assert TrimStart("") == "";
    }
  }

  /** A written decimal number in range, padded with whitespace and
      followed by any text that starts with neither a digit nor whitespace,
      is an accepted guess of that number: " 42 " and "50abc" both are. */
  lemma {:induction false} DecimalIsValidGuess(pre: string, n: int, rest: string, post: string)
    requires Lowest <= n <= Highest
    requires forall i :: 0 <= i < |pre| ==> IsJsWhitespace(pre[i])
    requires forall i :: 0 <= i < |post| ==> IsJsWhitespace(post[i])
    requires rest == [] || (!IsDigit(rest[0], 10) && !IsJsWhitespace(rest[0]) && !IsJsWhitespace(rest[|rest| - 1]))
    ensures IsValidGuess(pre + NumberToString(n) + rest + post)
    ensures ReadGuess(pre + NumberToString(n) + rest + post) == Some(n)
  {
    var ds := NumberToString(n);
    var body := ds + rest;
    var s := pre + ds + rest + post;
    NatToDecimalSpec(n);
    assert ds == NatToDecimal(n);
    assert Trim(s) == body by {
      assert s == pre + (body + post);
      assert IsDigit(body[0], 10);
      DecimalDigitIsNotSpace(body[0]);
      TrimStartSkipsPadding(pre, body + post);
      assert body[|body| - 1] == if rest == [] then ds[|ds| - 1] else rest[|rest| - 1];
      DecimalDigitIsNotSpace(ds[|ds| - 1]);
      TrimEndSkipsPadding(body, post);
    }
    ParseIntOfNumberString(n, rest);
  }

  lemma {:induction false} TrimStartSkipsPadding(pre: string, x: string)
    requires forall i :: 0 <= i < |pre| ==> IsJsWhitespace(pre[i])
    requires x == [] || !IsJsWhitespace(x[0])
    ensures TrimStart(pre + x) == TrimStart(x) == x
  {
    if pre != [] {
      assert (pre + x)[1..] == pre[1..] + x;
      TrimStartSkipsPadding(pre[1..], x);
    } else {
      assert pre + x == x;
    }
  }

  lemma {:induction false} TrimEndSkipsPadding(x: string, post: string)
    requires forall i :: 0 <= i < |post| ==> IsJsWhitespace(post[i])
    requires x == [] || !IsJsWhitespace(x[|x| - 1])
    ensures TrimEnd(x + post) == TrimEnd(x) == x
  {
    if post != [] {
      var shorter := post[..|post| - 1];
      assert (x + post)[..|x + post| - 1] == x + shorter;
      TrimEndSkipsPadding(x, shorter);
    } else {
      assert x + post == x;
    }
  }

  /** "Too high" exactly when the guess exceeds the secret. */
  function DirectionOf(guess: int, secret: int): (r: Direction) {
    if guess > secret then TooHigh else TooLow
  }

  /** The closeness bucket of |guess - secret|: at most 5, at most 10, more. */
  function ClosenessOf(guess: int, secret: int): (r: Closeness) {
    var difference := Abs(guess - secret);
    if difference <= 5 then VeryClose
    else if difference <= 10 then Warm
    else Cold
  }

  /** The buckets as bands around the secret: very close within 5 either
      side, warm from 6 to 10 away, cold beyond. */
  lemma ClosenessBands(guess: int, secret: int)
    ensures ClosenessOf(guess, secret) == VeryClose <==> secret - 5 <= guess <= secret + 5
    ensures ClosenessOf(guess, secret) == Warm <==>
              (secret - 10 <= guess < secret - 5 || secret + 5 < guess <= secret + 10)
    ensures ClosenessOf(guess, secret) == Cold <==> (guess < secret - 10 || guess > secret + 10)
    ensures DirectionOf(guess, secret) == TooLow <==> guess <= secret
  {
  }

  /** Mirror images: the guesses d above and d below the secret are equally
      close, and point in opposite directions. */
  lemma ClosenessIsSymmetric(secret: int, d: nat)
    requires d > 0
    ensures ClosenessOf(secret + d, secret) == ClosenessOf(secret - d, secret)
    ensures DirectionOf(secret + d, secret) == TooHigh && DirectionOf(secret - d, secret) == TooLow
  {
  }

  /** With secret 50: 53 is very close and too high, 58 warm and too high,
      20 cold and too low. */
  lemma ClassificationExamples()
    ensures DirectionOf(53, 50) == TooHigh && ClosenessOf(53, 50) == VeryClose
    ensures DirectionOf(58, 50) == TooHigh && ClosenessOf(58, 50) == Warm
    ensures DirectionOf(20, 50) == TooLow && ClosenessOf(20, 50) == Cold
  {
  }
}
