/** Score submission: the handler that appends to `scores` under the daily cap. */
module Ledger {
  import opened Outcomes
  import opened Clock
  import opened Schemas
  import opened Database

  /** `POST /scores/`: checks the score field, then that the user exists, then
      that the user has fewer than three scores dated today; only then appends
      one score timestamped `now` under a fresh id. */
  function AddScore(db: Db, input: ScoreInput, now: Instant): (out: Reply<Score>)
    ensures !ValidScore(input.score) ==> out == Reply(Err(InvalidInput), db)
    ensures ValidScore(input.score) && !HasUser(db.users, input.userId) ==> out == Reply(Err(UserNotFound), db)
    ensures (ValidScore(input.score) && HasUser(db.users, input.userId)
             && CountOnDate(db.scores, input.userId, DateOf(now)) >= DailyCap)
        ==> out == Reply(Err(DailyCapExceeded), db)
    ensures out.result.Ok? <==>
      ValidScore(input.score) && HasUser(db.users, input.userId) && CountOnDate(db.scores, input.userId, DateOf(now)) < DailyCap
    ensures out.result.Ok? ==>
      var s := out.result.value;
      && s == Score(input.userId, input.score, now, s.id)
      && (forall i :: 0 <= i < |db.scores| ==> db.scores[i].id != s.id)
      && out.db == db.(scores := db.scores + [ScoreRow(s.id, input.userId, input.score, now)])
  {
    if !ValidScore(input.score) then Reply(Err(InvalidInput), db)
    else if UserById(db.users, input.userId).None? then Reply(Err(UserNotFound), db)
    else if CountOnDate(db.scores, input.userId, DateOf(now)) >= DailyCap then Reply(Err(DailyCapExceeded), db)
    else
      var row := ScoreRow(FreshScoreId(db.scores), input.userId, input.score, now);
      Reply(Ok(Score(row.userId, row.score, row.timestamp, row.id)), db.(scores := db.scores + [row]))
  }

  /** An accepted score raises its owner's count for today by one, to at most
      the cap, and leaves every other (user, date) count as it was. */
  lemma AddScoreCounts(db: Db, input: ScoreInput, now: Instant, u: int, d: Date)
    requires AddScore(db, input, now).result.Ok?
    ensures var after := AddScore(db, input, now).db.scores;
      && CountOnDate(after, input.userId, DateOf(now)) == CountOnDate(db.scores, input.userId, DateOf(now)) + 1 <= DailyCap
      && ((u, d) != (input.userId, DateOf(now)) ==> CountOnDate(after, u, d) == CountOnDate(db.scores, u, d))
  {
    var out := AddScore(db, input, now);
    var row := out.db.scores[|db.scores|];
    assert out.db.scores == db.scores + [row];
    CountOnDateAppend(db.scores, row, u, d);
    CountOnDateAppend(db.scores, row, input.userId, DateOf(now));
  }

  /** Score submission leaves a valid database valid; in particular no user
      ever holds more than three scores dated the same day. */
  lemma AddScorePreservesValid(db: Db, input: ScoreInput, now: Instant)
    requires Valid(db)
    ensures Valid(AddScore(db, input, now).db)
  {
    var out := AddScore(db, input, now);
    if out.result.Ok? {
      var after := out.db.scores;
      var row := after[|db.scores|];
      assert after == db.scores + [row];
      forall u, d
        ensures CountOnDate(after, u, d) <= DailyCap
      {
        AddScoreCounts(db, input, now, u, d);
      }
      forall j | 0 <= j < |after|
        ensures HasUser(db.users, after[j].userId) && ValidScore(after[j].score)
      {
        if j < |db.scores| { assert after[j] == db.scores[j]; }
      }
    }
  }
}
