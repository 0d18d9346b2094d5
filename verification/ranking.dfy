/** The read-only score queries: a user's rank among today's scores and a
    user's scores of the current week. */
module Ranking {
  import opened Outcomes
  import opened Seqs
  import opened Sorting
  import opened Clock
  import opened Schemas
  import opened Database

  /** What the rank card shows: the rank, the user's score, and today's date. */
  datatype RankCard = RankCard(rank: nat, score: int, today: Date)

  function OnDate(d: Date): ScoreRow -> bool {
    (r: ScoreRow) => DateOf(r.timestamp) == d
  }

  function OwnedBy(userId: int): ScoreRow -> bool {
    (r: ScoreRow) => r.userId == userId
  }

  function OwnedOnDate(userId: int, d: Date): ScoreRow -> bool {
    (r: ScoreRow) => r.userId == userId && DateOf(r.timestamp) == d
  }

  /** Sort key for `ORDER BY score DESC`. */
  function ByScoreDesc(): ScoreRow -> int {
    (r: ScoreRow) => -r.score
  }

  /** Sort key for `ORDER BY timestamp`. */
  function ByTimestamp(): ScoreRow -> int {
    (r: ScoreRow) => r.timestamp
  }

  /** `order` lists exactly the rows of `rows`, highest score first, ties in any order. */
  ghost predicate IsLeaderboard(order: seq<ScoreRow>, rows: seq<ScoreRow>) {
    multiset(order) == multiset(rows) && SortedBy(order, ByScoreDesc())
  }

  /** All scores dated `d`, highest first. Rows with equal scores keep table
      order here; the rank facts below hold for any order of ties. */
  function Leaderboard(scores: seq<ScoreRow>, d: Date): (board: seq<ScoreRow>)
    ensures IsLeaderboard(board, Filter(scores, OnDate(d)))
  {
    var rows := Filter(scores, OnDate(d));
    SortBySorted(rows, ByScoreDesc());
    SortBy(rows, ByScoreDesc())
  }

  /** `best` is the highest score of `userId` among `rows`. */
  predicate IsBest(rows: seq<ScoreRow>, userId: int, best: int) {
    && (exists i :: 0 <= i < |rows| && rows[i].userId == userId && rows[i].score == best)
    && (forall i :: 0 <= i < |rows| && rows[i].userId == userId ==> rows[i].score <= best)
  }

  /** `best` is the highest score of `userId` among the rows dated `d`. */
  predicate IsBestOn(scores: seq<ScoreRow>, userId: int, d: Date, best: int) {
    && (exists i :: 0 <= i < |scores| && OwnedOnDate(userId, d)(scores[i]) && scores[i].score == best)
    && (forall i :: 0 <= i < |scores| && OwnedOnDate(userId, d)(scores[i]) ==> scores[i].score <= best)
  }

  /** `GET /scores/rank/{user_id}` without the image: fails when the user has no
      score dated today; otherwise the rank is one more than the position of
      the user's first row in today's leaderboard, and the score shown is the
      user's first score of today in table order. */
  function UserRank(db: Db, userId: int, now: Instant): (r: Result<RankCard>)
    ensures r.Ok? <==> CountOnDate(db.scores, userId, DateOf(now)) > 0
    ensures r.Err? ==> r.error == NoScoreToday
    ensures r.Ok? ==> r.value.today == DateOf(now)
    ensures r.Ok? ==> 1 <= r.value.rank <= |Filter(db.scores, OnDate(DateOf(now)))|
  {
    var today := DateOf(now);
    match FirstMatch(db.scores, OwnedOnDate(userId, today))
    case None => Err(NoScoreToday)
    case Some(k) =>
      var board := Leaderboard(db.scores, today);
      FilterKeeps(db.scores, OnDate(today), k);
      assert db.scores[k] in multiset(board);
      match FirstMatch(board, OwnedBy(userId))
      case None => Err(UserNotRankedToday)
      case Some(p) => Ok(RankCard(p + 1, db.scores[k].score, today))
  }

  /** In any leaderboard of `rows`, the user's first row carries the user's best score. */
  lemma FirstRowIsBest(rows: seq<ScoreRow>, order: seq<ScoreRow>, userId: int, best: int)
    requires IsLeaderboard(order, rows)
    requires IsBest(rows, userId, best)
    ensures FirstMatch(order, OwnedBy(userId)).Some?
    ensures order[FirstMatch(order, OwnedBy(userId)).value].score == best
  {
    var b :| 0 <= b < |rows| && rows[b].userId == userId && rows[b].score == best;
    assert rows[b] in multiset(order);
    var q :| 0 <= q < |order| && order[q] == rows[b];
    assert OwnedBy(userId)(order[q]);
    var p := FirstMatch(order, OwnedBy(userId)).value;
    assert order[p] in multiset(rows);
    var src :| 0 <= src < |rows| && rows[src] == order[p];
    assert order[p].score <= best;
    if p < q {
      assert ByScoreDesc()(order[p]) <= ByScoreDesc()(order[q]);
    }
  }

  /** In any leaderboard of `rows`, whatever the order of ties, the user's first
      row carries the user's best score; every row ahead of it belongs to
      another user and scores at least as much; and every row that scores
      more than the user's best is ahead of it. */
  lemma RankInAnyTieOrder(rows: seq<ScoreRow>, order: seq<ScoreRow>, userId: int, best: int)
    requires IsLeaderboard(order, rows)
    requires IsBest(rows, userId, best)
    ensures FirstMatch(order, OwnedBy(userId)).Some?
    ensures var p := FirstMatch(order, OwnedBy(userId)).value;
      && order[p].score == best
      && (forall j :: 0 <= j < p ==> order[j].userId != userId && order[j].score >= best)
      && (forall j :: 0 <= j < |order| && order[j].score > best ==> j < p)
  {
    FirstRowIsBest(rows, order, userId, best);
    var p := FirstMatch(order, OwnedBy(userId)).value;
    forall j | 0 <= j < p
      ensures order[j].userId != userId && order[j].score >= best
    {
      assert ByScoreDesc()(order[j]) <= ByScoreDesc()(order[p]);
    }
    forall j | p <= j < |order|
      ensures order[j].score <= best
    {
      assert ByScoreDesc()(order[p]) <= ByScoreDesc()(order[j]);
    }
  }

  /** The user's best score of a date is the user's best score among the rows of that date. */
  lemma BestOfDate(scores: seq<ScoreRow>, userId: int, d: Date, best: int)
    requires IsBestOn(scores, userId, d, best)
    ensures IsBest(Filter(scores, OnDate(d)), userId, best)
  {
    var rows := Filter(scores, OnDate(d));
    var i :| 0 <= i < |scores| && OwnedOnDate(userId, d)(scores[i]) && scores[i].score == best;
    FilterKeeps(scores, OnDate(d), i);
    var r :| 0 <= r < |rows| && rows[r] == scores[i];
    forall j | 0 <= j < |rows| && rows[j].userId == userId
      ensures rows[j].score <= best
    {
      FilterFrom(scores, OnDate(d), rows[j]);
      var m :| 0 <= m < |scores| && scores[m] == rows[j];
    }
  }

  /** The rank returned for a user whose best score of today is `best`: the
      user's first row in today's leaderboard sits at position rank - 1 and
      carries `best`, every row ahead belongs to another user and scores at
      least as much, and every row of today scoring more is ahead. The score
      shown is one of the user's scores of today, so at most `best`. */
  lemma UserRankMeaning(db: Db, userId: int, now: Instant, best: int)
    requires IsBestOn(db.scores, userId, DateOf(now), best)
    ensures UserRank(db, userId, now).Ok?
    ensures var card := UserRank(db, userId, now).value;
      var board := Leaderboard(db.scores, DateOf(now));
      && card.rank - 1 < |board|
      && board[card.rank - 1].userId == userId
      && board[card.rank - 1].score == best
      && (forall j :: 0 <= j < card.rank - 1 ==> board[j].userId != userId && board[j].score >= best)
      && (forall j :: 0 <= j < |board| && board[j].score > best ==> j < card.rank - 1)
      && card.score <= best
      && exists i :: 0 <= i < |db.scores| && OwnedOnDate(userId, DateOf(now))(db.scores[i]) && db.scores[i].score == card.score
  {
    var today := DateOf(now);
    var board := Leaderboard(db.scores, today);
    BestOfDate(db.scores, userId, today, best);
    RankInAnyTieOrder(Filter(db.scores, OnDate(today)), board, userId, best);
    var k := FirstMatch(db.scores, OwnedOnDate(userId, today)).value;
    var p := FirstMatch(board, OwnedBy(userId)).value;
    assert UserRank(db, userId, now) == Ok(RankCard(p + 1, db.scores[k].score, today));
  }

  /** The scores of the worked example below, all dated day 0. */
  function ExampleScores(): seq<ScoreRow> {
    [ScoreRow(1, 1, 100, 0), ScoreRow(2, 2, 300, 1), ScoreRow(3, 3, 300, 2), ScoreRow(4, 4, 200, 3)]
  }

  // Steps of sorting the example, one insertion each.

  lemma ExampleStep1()
    ensures SortBy([ScoreRow(3, 3, 300, 2), ScoreRow(4, 4, 200, 3)], ByScoreDesc())
         == [ScoreRow(3, 3, 300, 2), ScoreRow(4, 4, 200, 3)]
  {
    var c := ScoreRow(3, 3, 300, 2);
    var d := ScoreRow(4, 4, 200, 3);
    assert [c, d][1..] == [d];
    assert SortBy([d], ByScoreDesc()) == [d];
  }

  lemma ExampleStep2()
    ensures SortBy([ScoreRow(2, 2, 300, 1), ScoreRow(3, 3, 300, 2), ScoreRow(4, 4, 200, 3)], ByScoreDesc())
         == [ScoreRow(2, 2, 300, 1), ScoreRow(3, 3, 300, 2), ScoreRow(4, 4, 200, 3)]
  {
    var b := ScoreRow(2, 2, 300, 1);
    var c := ScoreRow(3, 3, 300, 2);
    var d := ScoreRow(4, 4, 200, 3);
    assert [b, c, d][1..] == [c, d];
    ExampleStep1();
  }

  lemma ExampleStep3()
    ensures Insert(ScoreRow(1, 1, 100, 0), [ScoreRow(4, 4, 200, 3)], ByScoreDesc())
         == [ScoreRow(4, 4, 200, 3), ScoreRow(1, 1, 100, 0)]
  {
    var a := ScoreRow(1, 1, 100, 0);
    var d := ScoreRow(4, 4, 200, 3);
    InsertAfterHead(a, d, [], ByScoreDesc());
    assert [d] + [] == [d];
    assert Insert(a, [], ByScoreDesc()) == [a];
  }

  lemma ExampleStep4()
    ensures Insert(ScoreRow(1, 1, 100, 0), [ScoreRow(3, 3, 300, 2), ScoreRow(4, 4, 200, 3)], ByScoreDesc())
         == [ScoreRow(3, 3, 300, 2), ScoreRow(4, 4, 200, 3), ScoreRow(1, 1, 100, 0)]
  {
    var a := ScoreRow(1, 1, 100, 0);
    var c := ScoreRow(3, 3, 300, 2);
    var d := ScoreRow(4, 4, 200, 3);
    InsertAfterHead(a, c, [d], ByScoreDesc());
    assert [c] + [d] == [c, d];
    ExampleStep3();
  }

  lemma ExampleStep5()
    ensures Insert(ScoreRow(1, 1, 100, 0), [ScoreRow(2, 2, 300, 1), ScoreRow(3, 3, 300, 2), ScoreRow(4, 4, 200, 3)], ByScoreDesc())
         == [ScoreRow(2, 2, 300, 1), ScoreRow(3, 3, 300, 2), ScoreRow(4, 4, 200, 3), ScoreRow(1, 1, 100, 0)]
  {
    var a := ScoreRow(1, 1, 100, 0);
    var b := ScoreRow(2, 2, 300, 1);
    var c := ScoreRow(3, 3, 300, 2);
    var d := ScoreRow(4, 4, 200, 3);
    InsertAfterHead(a, b, [c, d], ByScoreDesc());
    assert [b] + [c, d] == [b, c, d];
    ExampleStep4();
  }

  /** The example's scores ordered by descending score. */
  function ExampleBoard(): seq<ScoreRow> {
    [ScoreRow(2, 2, 300, 1), ScoreRow(3, 3, 300, 2), ScoreRow(4, 4, 200, 3), ScoreRow(1, 1, 100, 0)]
  }

  /** The example's leaderboard: the two 300s in table order, then 200, then 100. */
  lemma ExampleLeaderboard()
    ensures Leaderboard(ExampleScores(), 0) == ExampleBoard()
  {
    var s := ExampleScores();
    FilterAll(s, OnDate(0));
    ExampleStep2();
    ExampleStep5();
    assert s[1..] == [ScoreRow(2, 2, 300, 1), ScoreRow(3, 3, 300, 2), ScoreRow(4, 4, 200, 3)];
  }

  /** The rank card follows from where the user's rows are found. */
  lemma RankFromPositions(db: Db, userId: int, now: Instant, k: nat, rank: nat, score: int, today: Date)
    requires DateOf(now) == today
    requires FirstMatch(db.scores, OwnedOnDate(userId, today)) == Some(k)
    requires k < |db.scores| && db.scores[k].score == score
    requires 1 <= rank && FirstMatch(Leaderboard(db.scores, today), OwnedBy(userId)) == Some(rank - 1)
    ensures UserRank(db, userId, now) == Ok(RankCard(rank, score, today))
  {
  }

  /** Where each example user's first row of day 0 is in the table. */
  lemma ExampleFirstToday()
    ensures FirstMatch(ExampleScores(), OwnedOnDate(1, 0)) == Some(0)
    ensures FirstMatch(ExampleScores(), OwnedOnDate(2, 0)) == Some(1)
    ensures FirstMatch(ExampleScores(), OwnedOnDate(3, 0)) == Some(2)
    ensures FirstMatch(ExampleScores(), OwnedOnDate(4, 0)) == Some(3)
  {
    var s := ExampleScores();
    assert s[1..][1..][1..] == [s[3]];
  }

  /** Where each example user's first row is on the example leaderboard. */
  lemma ExampleFirstOnBoard()
    ensures FirstMatch(ExampleBoard(), OwnedBy(2)) == Some(0)
    ensures FirstMatch(ExampleBoard(), OwnedBy(3)) == Some(1)
    ensures FirstMatch(ExampleBoard(), OwnedBy(4)) == Some(2)
    ensures FirstMatch(ExampleBoard(), OwnedBy(1)) == Some(3)
  {
    var board := ExampleBoard();
    assert board[1..][1..][1..] == [board[3]];
  }

  /** User 2's 300, first of the tied pair in the table, ranks first. */
  lemma FirstOfTie(db: Db)
    requires db.scores == ExampleScores()
    ensures UserRank(db, 2, 10) == Ok(RankCard(1, 300, 0))
  {
    ExampleLeaderboard();
    ExampleFirstToday();
    ExampleFirstOnBoard();
    assert DateOf(10) == 0;
    RankFromPositions(db, 2, 10, 1, 1, 300, 0);
  }

  /** User 3's equal 300, met second, ranks second. */
  lemma SecondOfTie(db: Db)
    requires db.scores == ExampleScores()
    ensures UserRank(db, 3, 10) == Ok(RankCard(2, 300, 0))
  {
    ExampleLeaderboard();
    ExampleFirstToday();
    ExampleFirstOnBoard();
    assert DateOf(10) == 0;
    RankFromPositions(db, 3, 10, 2, 2, 300, 0);
  }

  /** User 4's 200 ranks third. */
  lemma ThirdPlace(db: Db)
    requires db.scores == ExampleScores()
    ensures UserRank(db, 4, 10) == Ok(RankCard(3, 200, 0))
  {
    ExampleLeaderboard();
    ExampleFirstToday();
    ExampleFirstOnBoard();
    assert DateOf(10) == 0;
    RankFromPositions(db, 4, 10, 3, 3, 200, 0);
  }

  /** User 1's 100 ranks last. */
  lemma LastPlace(db: Db)
    requires db.scores == ExampleScores()
    ensures UserRank(db, 1, 10) == Ok(RankCard(4, 100, 0))
  {
    ExampleLeaderboard();
    ExampleFirstToday();
    ExampleFirstOnBoard();
    assert DateOf(10) == 0;
    RankFromPositions(db, 1, 10, 0, 4, 100, 0);
  }

  /** Today's scores (u1, 100), (u2, 300), (u3, 300), (u4, 200): u4 ranks third
      and u1 fourth; of the tied u2 and u3, the one met first ranks first and
      the other second. */
  lemma SameDayRanks(db: Db)
    requires db.scores == ExampleScores()
    ensures UserRank(db, 4, 10) == Ok(RankCard(3, 200, 0))
    ensures UserRank(db, 1, 10) == Ok(RankCard(4, 100, 0))
    ensures UserRank(db, 2, 10) == Ok(RankCard(1, 300, 0))
    ensures UserRank(db, 3, 10) == Ok(RankCard(2, 300, 0))
  {
    ThirdPlace(db);
    LastPlace(db);
    FirstOfTie(db);
    SecondOfTie(db);
  }

  /** The weekly query's filter: the user's rows with `timestamp >= start` and
      `timestamp <= start + 6`, both compared with bare dates. */
  function InWeek(userId: int, start: Date): ScoreRow -> bool {
    (r: ScoreRow) => r.userId == userId && NotBeforeDate(r.timestamp, start) && NotAfterDate(r.timestamp, start + 6)
  }

  /** The rows the weekly query returns, in ascending timestamp order. */
  function WeeklyEntries(scores: seq<ScoreRow>, userId: int, now: Instant): (e: seq<ScoreRow>)
    ensures SortedBy(e, ByTimestamp())
  {
    var rows := Filter(scores, InWeek(userId, WeekStart(DateOf(now))));
    SortBySorted(rows, ByTimestamp());
    SortBy(rows, ByTimestamp())
  }

  /** `GET /scores/weekly/{user_id}`: the scores of the entries, in order, and
      `success` exactly when there is at least one. */
  function WeeklyScores(db: Db, userId: int, now: Instant): (r: WeeklyScoresResponse)
    ensures r.success <==> |r.weekly| > 0
    ensures |r.weekly| == |WeeklyEntries(db.scores, userId, now)|
    ensures forall i :: 0 <= i < |r.weekly| ==> r.weekly[i] == WeeklyEntries(db.scores, userId, now)[i].score
  {
    var entries := WeeklyEntries(db.scores, userId, now);
    var weekly := seq(|entries|, i requires 0 <= i < |entries| => entries[i].score);
    WeeklyScoresResponse(|weekly| > 0, weekly)
  }

  /** The weekly entries hold every copy of each of the user's rows stamped
      from Monday 00:00 of the current week up to, but excluding, Sunday 00:00,
      and nothing else; the Monday starts the week containing today. */
  lemma WeeklyContents(scores: seq<ScoreRow>, userId: int, now: Instant, x: ScoreRow)
    ensures var start := WeekStart(DateOf(now));
      && Weekday(start) == 0
      && start <= DateOf(now) <= start + 6
      && multiset(WeeklyEntries(scores, userId, now))[x]
         == if x.userId == userId && Midnight(start) <= x.timestamp < Midnight(start + 6) then multiset(scores)[x] else 0
  {
    var start := WeekStart(DateOf(now));
    WeekBounds(DateOf(now));
    FilterMultiplicity(scores, InWeek(userId, start), x);
    NotBeforeDateIsMidnight(x.timestamp, start);
    NotAfterDateIsBeforeMidnight(x.timestamp, start + 6);
  }

  /** A table of one row: the weekly query lists it exactly when it is the
      user's and stamped within [Monday 00:00, Sunday 00:00) of this week. */
  lemma OneRowWeekly(userId: int, now: Instant, x: ScoreRow)
    ensures var start := WeekStart(DateOf(now));
      var e := WeeklyEntries([x], userId, now);
      && (x.userId == userId && Midnight(start) <= x.timestamp < Midnight(start + 6) ==> e == [x])
      && (!(x.userId == userId && Midnight(start) <= x.timestamp < Midnight(start + 6)) ==> e == [])
  {
    var start := WeekStart(DateOf(now));
    NotBeforeDateIsMidnight(x.timestamp, start);
    NotAfterDateIsBeforeMidnight(x.timestamp, start + 6);
    assert [x][1..] == [];
    assert SortBy([x], ByTimestamp()) == [x];
  }

  /** A user's row stamped exactly Monday 00:00 of the current week is listed;
      one stamped a second earlier is not. */
  lemma WeekStartBoundary(userId: int, now: Instant, id: int, score: int)
    ensures var start := WeekStart(DateOf(now));
      && WeeklyEntries([ScoreRow(id, userId, score, Midnight(start))], userId, now) != []
      && WeeklyEntries([ScoreRow(id, userId, score, Midnight(start) - 1)], userId, now) == []
  {
    var start := WeekStart(DateOf(now));
    OneRowWeekly(userId, now, ScoreRow(id, userId, score, Midnight(start)));
    OneRowWeekly(userId, now, ScoreRow(id, userId, score, Midnight(start) - 1));
  }

  /** A user's row stamped Saturday 23:59:59 of the current week is listed;
      one stamped Sunday 00:00 is not. */
  lemma WeekEndBoundary(userId: int, now: Instant, id: int, score: int)
    ensures var start := WeekStart(DateOf(now));
      && WeeklyEntries([ScoreRow(id, userId, score, Midnight(start + 6) - 1)], userId, now) != []
      && WeeklyEntries([ScoreRow(id, userId, score, Midnight(start + 6))], userId, now) == []
  {
    var start := WeekStart(DateOf(now));
    OneRowWeekly(userId, now, ScoreRow(id, userId, score, Midnight(start + 6) - 1));
    OneRowWeekly(userId, now, ScoreRow(id, userId, score, Midnight(start + 6)));
  }

  /** Today's leaderboard of one user's 100 followed by the same user's 300. */
  lemma TwoScoresBoard()
    ensures Leaderboard([ScoreRow(1, 7, 100, 0), ScoreRow(2, 7, 300, 1)], 0) == [ScoreRow(2, 7, 300, 1), ScoreRow(1, 7, 100, 0)]
  {
    var a := ScoreRow(1, 7, 100, 0);
    var b := ScoreRow(2, 7, 300, 1);
    FilterAll([a, b], OnDate(0));
    assert [a, b][1..] == [b];
    assert SortBy([b], ByScoreDesc()) == [b];
    InsertAfterHead(a, b, [], ByScoreDesc());
    assert [b] + [] == [b];
    assert Insert(a, [], ByScoreDesc()) == [a];
  }

  /** The card's score is the user's first score of today in table order, not
      the score that earned the rank: with 100 then 300 today the user ranks
      first on the strength of the 300 while the card shows 100. */
  lemma ShownScoreNeedNotBeRanked()
    ensures var db := Db([], [], [ScoreRow(1, 7, 100, 0), ScoreRow(2, 7, 300, 1)]);
      && UserRank(db, 7, 10) == Ok(RankCard(1, 100, 0))
      && Leaderboard(db.scores, 0)[0].score == 300
  {
    var db := Db([], [], [ScoreRow(1, 7, 100, 0), ScoreRow(2, 7, 300, 1)]);
    TwoScoresBoard();
    assert DateOf(10) == 0;
    RankFromPositions(db, 7, 10, 0, 1, 100, 0);
  }
}
