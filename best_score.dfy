/** The best-score record (app.js, checkAndUpdateBestScore, loadBestScore
    and saveBestScore): the fewest attempts that ever won a game, and the
    text kept for it under one localStorage key. */
module BestScore {
  import opened Wrappers
  import opened JsText

  /** game.bestScore: null, a number of attempts, or NaN, which is what
      loadBestScore gets from a saved text that does not start with a
      number. */
  datatype BestScore = NoRecord | Record(attempts: int) | NaN

  /** The one localStorage key the game reads and writes. */
  const StorageKey: string := "numberGuessingGameBestScore"

  function Min(a: int, b: int): (r: int) {
    if a <= b then a else b
  }

  /** The test of checkAndUpdateBestScore: no record yet, or strictly fewer
      attempts. Every comparison with NaN is false, so NaN is never beaten. */
  predicate IsNewRecord(best: BestScore, score: int) {
    best.NoRecord? || (best.Record? && score < best.attempts)
  }

  /** bestScore after a game won with the given score. */
  function AfterWin(best: BestScore, score: int): (r: BestScore)
    ensures best.NoRecord? ==> r == Record(score)
    ensures best.Record? ==> r == Record(Min(best.attempts, score))
    ensures best.NaN? ==> r == NaN
  {
    if IsNewRecord(best, score) then Record(score) else best
  }

  /** A record is never raised, and a new record is exactly a strictly
      lower score: a tie leaves the record as it was and is not reported. */
  lemma RecordNeverIncreases(best: BestScore, score: int)
    ensures best.Record? ==> AfterWin(best, score).Record?
                             && AfterWin(best, score).attempts <= best.attempts
                             && AfterWin(best, score).attempts <= score
    ensures IsNewRecord(best, score) <==> AfterWin(best, score) == Record(score) && best != Record(score)
  {
  }

  /** No record, then wins in 7, 9, 5 and 5 attempts: new, not new (7
      stays), new (5), not new (a tie). */
  lemma RecordScenario()
    ensures IsNewRecord(NoRecord, 7) && AfterWin(NoRecord, 7) == Record(7)
    ensures !IsNewRecord(Record(7), 9) && AfterWin(Record(7), 9) == Record(7)
    ensures IsNewRecord(Record(7), 5) && AfterWin(Record(7), 5) == Record(5)
    ensures !IsNewRecord(Record(5), 5) && AfterWin(Record(5), 5) == Record(5)
  {
  }

  /** The text saveBestScore writes, bestScore.toString(); None when
      bestScore is null and nothing is written. */
  function Serialized(best: BestScore): (r: Option<string>)
    ensures r.None? <==> best.NoRecord?
  {
    match best
    case NoRecord => None
    case Record(n) => Some(NumberToString(n))
    case NaN => Some(NaNString)
  }

  /** loadBestScore's reading of what getItem returned: null for a missing
      key or an empty text (both falsy), parseInt of the text otherwise. */
  function Loaded(saved: Option<string>): (r: BestScore)
    ensures r == NoRecord <==> saved == None || saved == Some("")
  {
    match saved
    case None => NoRecord
    case Some(s) =>
      if s == "" then NoRecord
      else match ParseInt(s)
        case None => NaN
        case Some(n) => Record(n)
  }

  /** What is saved loads back unchanged, NaN included. */
  lemma {:induction false} SaveLoadRoundTrip(best: BestScore)
    requires best != NoRecord
    ensures Loaded(Serialized(best)) == best
  {
    match best
    case Record(n) =>
      NumberStringRoundTrip(n);
      NatToDecimalSpec(if n < 0 then -n else n);
    case NaN =>
      NaNStringRoundTrip();
  }

  /** A saved text with no letter or digit in it loads as NaN, not as null:
      the record it stands for can then never be beaten. */
  lemma LoadedGarbageIsNaN(s: string)
    requires s != "" && (forall i :: 0 <= i < |s| ==> !IsDigit(s[i], 36))
    ensures Loaded(Some(s)) == NaN
  {
    var t := TrimStart(s);
    TrimStartSpec(s);
    if t != [] {
      var u := if t[0] == '-' || t[0] == '+' then t[1..] else t;
      assert u == s[|s| - |u|..];
      if u != [] {
        assert !IsDigit(u[0], 36);
      }
    }
  }
}
