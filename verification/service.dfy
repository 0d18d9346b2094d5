/** The service as a whole: every request is a transition of the database,
    and sequences of requests keep the schema's constraints. */
module Service {
  import opened Outcomes
  import opened Clock
  import opened Schemas
  import opened Database
  import opened Verification
  import opened Ledger
  import opened Ranking

  /** A request to one of the modelled endpoints. */
  datatype Request =
    | Register(reg: Registration)
    | AskOtp(phone: string)
    | Verify(v: OtpVerification)
    | Submit(input: ScoreInput)
    | Rank(userId: int)
    | Weekly(userId: int)

  /** The database after serving `req` at instant `now`; the rank and weekly
      queries only read. */
  function Apply(db: Db, req: Request, now: Instant): (r: Db)
    ensures req.Rank? || req.Weekly? ==> r == db
  {
    match req
    case Register(reg) => RegisterUser(db, reg, now).db
    case AskOtp(phone) => RequestOtp(db, phone, now).db
    case Verify(v) => VerifyOtp(db, v, now).db
    case Submit(input) => AddScore(db, input, now).db
    case Rank(_) => db
    case Weekly(_) => db
  }

  /** One request with the instant it is served at. */
  datatype Timed = Timed(req: Request, now: Instant)

  /** Serves the requests one after another. */
  function Run(db: Db, trace: seq<Timed>): (r: Db)
    ensures (forall i :: 0 <= i < |trace| ==> trace[i].req.Rank? || trace[i].req.Weekly?) ==> r == db
    decreases |trace|
  {
    if |trace| == 0 then db
    else Run(Apply(db, trace[0].req, trace[0].now), trace[1..])
  }

  /** Every request keeps the database valid. */
  lemma ApplyPreservesValid(db: Db, req: Request, now: Instant)
    requires Valid(db)
    ensures Valid(Apply(db, req, now))
  {
    match req
    case Register(reg) => RegisterPreservesValid(db, reg, now);
    case AskOtp(phone) => RequestOtpPreservesValid(db, phone, now);
    case Verify(v) => VerifyOtpPreservesValid(db, v, now);
    case Submit(input) => AddScorePreservesValid(db, input, now);
    case Rank(_) =>
    case Weekly(_) =>
  }

  /** From any valid database (`EmptyDb` is one, by `EmptyDbValid`), any
      sequence of requests at any instants keeps every constraint of `Valid`:
      unique ids in every table, unique phones and emails, flags 0 or 1, every
      OTP and score owned by an existing user, 4-character codes, scores in
      50..500, and at most three scores per user per date. */
  lemma {:induction false} RunPreservesValid(db: Db, trace: seq<Timed>)
    requires Valid(db)
    ensures Valid(Run(db, trace))
    decreases |trace|
  {
    if |trace| > 0 {
      ApplyPreservesValid(db, trace[0].req, trace[0].now);
      RunPreservesValid(Apply(db, trace[0].req, trace[0].now), trace[1..]);
    }
  }

  /** How the database may change over time: users are never removed and each
      keeps its row except that its flag may be set to 1; scores are only
      appended, so a stored score, its timestamp included, never changes. */
  ghost predicate Evolves(db: Db, db': Db) {
    && |db.users| <= |db'.users|
    && (forall i :: 0 <= i < |db.users| ==>
          db'.users[i] == db.users[i] || db'.users[i] == db.users[i].(isVerified := Verified))
    && |db.scores| <= |db'.scores|
    && db'.scores[..|db.scores|] == db.scores
  }

  /** Every request changes the database only as `Evolves` allows. */
  lemma ApplyEvolves(db: Db, req: Request, now: Instant)
    ensures Evolves(db, Apply(db, req, now))
  {
    match req
    case Register(reg) =>
    case AskOtp(phone) =>
    case Verify(v) =>
    case Submit(input) =>
    case Rank(_) =>
    case Weekly(_) =>
  }

  lemma EvolvesTransitive(a: Db, b: Db, c: Db)
    requires Evolves(a, b) && Evolves(b, c)
    ensures Evolves(a, c)
  {
    assert c.scores[..|a.scores|] == c.scores[..|b.scores|][..|a.scores|];
  }

  /** Over any sequence of requests, no user disappears or loses its
      verification, and every stored score stays as it was inserted. */
  lemma {:induction false} RunEvolves(db: Db, trace: seq<Timed>)
    ensures Evolves(db, Run(db, trace))
    decreases |trace|
  {
    if |trace| == 0 {
      assert db.scores[..|db.scores|] == db.scores;
    } else {
      var next := Apply(db, trace[0].req, trace[0].now);
      ApplyEvolves(db, trace[0].req, trace[0].now);
      RunEvolves(next, trace[1..]);
      EvolvesTransitive(db, next, Run(next, trace[1..]));
    }
  }

  /** A score accepted on a Sunday is missing from that same day's weekly
      list: the upper bound compares with Sunday's bare date, which every
      instant of Sunday passes. */
  lemma SundayScoreNotListed(db: Db, input: ScoreInput, now: Instant)
    requires Weekday(DateOf(now)) == 6
    requires AddScore(db, input, now).result.Ok?
    ensures var out := AddScore(db, input, now);
      var row := ScoreRow(out.result.value.id, input.userId, input.score, now);
      && row in out.db.scores
      && row !in WeeklyEntries(out.db.scores, input.userId, now)
  {
    var out := AddScore(db, input, now);
    var row := ScoreRow(out.result.value.id, input.userId, input.score, now);
    assert out.db.scores[|db.scores|] == row;
    WeeklyContents(out.db.scores, input.userId, now, row);
    DateOfBounds(now);
    assert WeekStart(DateOf(now)) + 6 == DateOf(now);
  }
}
