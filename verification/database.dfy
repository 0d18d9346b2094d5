/** The three tables of the service and the constraints the schema puts on them. */
module Database {
  import opened Outcomes
  import opened Seqs
  import opened Clock
  import opened Schemas

  /** A row of `users`. `isVerified` is an integer column: 0 until the phone is verified, then 1. */
  datatype UserRow = UserRow(id: int, phone: string, name: string, dateOfBirth: Date, email: string, isVerified: int)

  /** A row of `otps`: the owner, a copy of the phone it was sent to, the code and its expiry instant. */
  datatype OtpRow = OtpRow(id: int, userId: int, phone: string, code: string, expiry: Instant)

  /** A row of `scores`, timestamped when inserted. */
  datatype ScoreRow = ScoreRow(id: int, userId: int, score: int, timestamp: Instant)

  /** The whole database; each table in row order. */
  datatype Db = Db(users: seq<UserRow>, otps: seq<OtpRow>, scores: seq<ScoreRow>)

  /** What a state-changing request answers, and the database after it. */
  datatype Reply<+T> = Reply(result: Result<T>, db: Db)

  const Unverified: int := 0
  const Verified: int := 1

  const EmptyDb: Db := Db([], [], [])

  /** The id an integer primary key receives on insert: one more than the
      largest id in the table, or 1 in an empty table. */
  function NextId(ids: seq<int>): (r: int)
    ensures forall i :: 0 <= i < |ids| ==> ids[i] < r
    ensures |ids| == 0 ==> r == 1
    ensures |ids| > 0 ==> exists i :: 0 <= i < |ids| && ids[i] == r - 1
  {
    if |ids| == 0 then 1
    else if |ids| == 1 then ids[0] + 1
    else
      var rest := NextId(ids[1..]);
      if ids[0] + 1 > rest then ids[0] + 1 else rest
  }

  /** The primary-key column of a table. */
  function Ids<T>(rows: seq<T>, id: T -> int): (ids: seq<int>)
    ensures |ids| == |rows|
    ensures forall i :: 0 <= i < |rows| ==> ids[i] == id(rows[i])
  {
    seq(|rows|, i requires 0 <= i < |rows| => id(rows[i]))
  }

  /** The id the next inserted user receives; no existing user has it. */
  function FreshUserId(users: seq<UserRow>): (id: int)
    ensures forall i :: 0 <= i < |users| ==> users[i].id != id
  {
    NextId(Ids(users, (u: UserRow) => u.id))
  }

  /** The id the next inserted OTP receives; no existing OTP has it. */
  function FreshOtpId(otps: seq<OtpRow>): (id: int)
    ensures forall i :: 0 <= i < |otps| ==> otps[i].id != id
  {
    NextId(Ids(otps, (o: OtpRow) => o.id))
  }

  /** The id the next inserted score receives; no existing score has it. */
  function FreshScoreId(scores: seq<ScoreRow>): (id: int)
    ensures forall i :: 0 <= i < |scores| ==> scores[i].id != id
  {
    NextId(Ids(scores, (s: ScoreRow) => s.id))
  }

  // Filter conditions of the queries.

  function PhoneIs(phone: string): UserRow -> bool {
    (u: UserRow) => u.phone == phone
  }

  function EmailIs(email: string): UserRow -> bool {
    (u: UserRow) => u.email == email
  }

  function UserIdIs(id: int): UserRow -> bool {
    (u: UserRow) => u.id == id
  }

  function OtpIdIsNot(id: int): OtpRow -> bool {
    (o: OtpRow) => o.id != id
  }

  predicate PhoneInUse(users: seq<UserRow>, phone: string) {
    exists i :: 0 <= i < |users| && users[i].phone == phone
  }

  predicate EmailInUse(users: seq<UserRow>, email: string) {
    exists i :: 0 <= i < |users| && users[i].email == email
  }

  predicate HasUser(users: seq<UserRow>, id: int) {
    exists i :: 0 <= i < |users| && users[i].id == id
  }

  /** The first user with this phone number. */
  function UserByPhone(users: seq<UserRow>, phone: string): (r: Option<nat>)
    ensures r.Some? <==> PhoneInUse(users, phone)
    ensures r.Some? ==> r.value < |users| && users[r.value].phone == phone
  {
    FirstMatch(users, PhoneIs(phone))
  }

  /** The first user with this email address. */
  function UserByEmail(users: seq<UserRow>, email: string): (r: Option<nat>)
    ensures r.Some? <==> EmailInUse(users, email)
    ensures r.Some? ==> r.value < |users| && users[r.value].email == email
  {
    FirstMatch(users, EmailIs(email))
  }

  /** The first user with this id. */
  function UserById(users: seq<UserRow>, id: int): (r: Option<nat>)
    ensures r.Some? <==> HasUser(users, id)
    ensures r.Some? ==> r.value < |users| && users[r.value].id == id
  {
    FirstMatch(users, UserIdIs(id))
  }

  /** `DELETE FROM otps WHERE id = ?`. */
  function DeleteOtp(otps: seq<OtpRow>, id: int): (r: seq<OtpRow>)
    ensures forall x :: multiset(r)[x] == if x.id != id then multiset(otps)[x] else 0
  {
    FilterCounts(otps, OtpIdIsNot(id));
    Filter(otps, OtpIdIsNot(id))
  }

  /** `UPDATE users SET is_verified = 1 WHERE id = ?`. */
  function MarkVerified(users: seq<UserRow>, id: int): (r: seq<UserRow>)
    ensures |r| == |users|
    ensures forall i :: 0 <= i < |users| && users[i].id == id ==> r[i] == users[i].(isVerified := Verified)
    ensures forall i :: 0 <= i < |users| && users[i].id != id ==> r[i] == users[i]
  {
    seq(|users|, i requires 0 <= i < |users| => if users[i].id == id then users[i].(isVerified := Verified) else users[i])
  }

  /** The `User` shape of a stored user row. */
  function AsUser(row: UserRow): User {
    User(row.id, row.name, row.phone, row.dateOfBirth, row.email, row.isVerified == Verified)
  }

  // The schema's constraints and the invariants the handlers keep, held as an invariant of the state.

  predicate UniqueUserIds(users: seq<UserRow>) {
    forall i, j :: 0 <= i < j < |users| ==> users[i].id != users[j].id
  }

  predicate UniquePhones(users: seq<UserRow>) {
    forall i, j :: 0 <= i < j < |users| ==> users[i].phone != users[j].phone
  }

  predicate UniqueEmails(users: seq<UserRow>) {
    forall i, j :: 0 <= i < j < |users| ==> users[i].email != users[j].email
  }

  predicate UniqueOtpIds(otps: seq<OtpRow>) {
    forall i, j :: 0 <= i < j < |otps| ==> otps[i].id != otps[j].id
  }

  predicate UniqueScoreIds(scores: seq<ScoreRow>) {
    forall i, j :: 0 <= i < j < |scores| ==> scores[i].id != scores[j].id
  }

  /** Every user's flag is 0 or 1. */
  predicate FlagsAreBits(users: seq<UserRow>) {
    forall i :: 0 <= i < |users| ==> users[i].isVerified == Unverified || users[i].isVerified == Verified
  }

  /** Every OTP belongs to an existing user. */
  predicate OtpOwnersExist(users: seq<UserRow>, otps: seq<OtpRow>) {
    forall i :: 0 <= i < |otps| ==> HasUser(users, otps[i].userId)
  }

  /** Every score belongs to an existing user. */
  predicate ScoreOwnersExist(users: seq<UserRow>, scores: seq<ScoreRow>) {
    forall i :: 0 <= i < |scores| ==> HasUser(users, scores[i].userId)
  }

  /** Every stored code would pass the OTP field check. */
  predicate OtpCodesWellFormed(otps: seq<OtpRow>) {
    forall i :: 0 <= i < |otps| ==> ValidOtpText(otps[i].code)
  }

  /** Every stored score passed the score field check. */
  predicate ScoresInRange(scores: seq<ScoreRow>) {
    forall i :: 0 <= i < |scores| ==> ValidScore(scores[i].score)
  }

  /** The number of scores of user `u` whose timestamp falls on date `d`. */
  function CountOnDate(scores: seq<ScoreRow>, u: int, d: Date): (n: nat)
    ensures n <= |scores|
    ensures n == 0 <==> forall i :: 0 <= i < |scores| ==> !(scores[i].userId == u && DateOf(scores[i].timestamp) == d)
  {
    if |scores| == 0 then 0
    else
      var last := scores[|scores| - 1];
      CountOnDate(scores[..|scores| - 1], u, d) + (if last.userId == u && DateOf(last.timestamp) == d then 1 else 0)
  }

  const DailyCap: nat := 3

  /** No user has more than `DailyCap` scores on any date. */
  ghost predicate DailyCapHolds(scores: seq<ScoreRow>) {
    forall u, d :: CountOnDate(scores, u, d) <= DailyCap
  }

  ghost predicate Valid(db: Db) {
    && UniqueUserIds(db.users)
    && UniquePhones(db.users)
    && UniqueEmails(db.users)
    && FlagsAreBits(db.users)
    && UniqueOtpIds(db.otps)
    && OtpOwnersExist(db.users, db.otps)
    && OtpCodesWellFormed(db.otps)
    && UniqueScoreIds(db.scores)
    && ScoreOwnersExist(db.users, db.scores)
    && ScoresInRange(db.scores)
    && DailyCapHolds(db.scores)
  }

  lemma EmptyDbValid()
    ensures Valid(EmptyDb)
  {
  }

  /** Appending a score raises its owner's count on its own date by one and changes no other count. */
  lemma CountOnDateAppend(scores: seq<ScoreRow>, x: ScoreRow, u: int, d: Date)
    ensures CountOnDate(scores + [x], u, d)
         == CountOnDate(scores, u, d) + (if x.userId == u && DateOf(x.timestamp) == d then 1 else 0)
  {
    assert (scores + [x])[..|scores|] == scores;
  }

  /** With unique ids, deleting by the id of row `k` removes exactly that row. */
  lemma DeleteOtpRemovesOne(otps: seq<OtpRow>, k: nat)
    requires k < |otps|
    requires UniqueOtpIds(otps)
    ensures DeleteOtp(otps, otps[k].id) == otps[..k] + otps[k + 1..]
  {
    var p := OtpIdIsNot(otps[k].id);
    assert forall i :: 0 <= i < |otps| && i != k ==> p(otps[i]) by {
      forall i | 0 <= i < |otps| && i != k
        ensures p(otps[i])
      {
        if i < k { assert otps[i].id != otps[k].id; } else { assert otps[k].id != otps[i].id; }
      }
    }
    FilterAllBut(otps, p, k);
  }

  /** With unique ids, marking one user verified is the update of that user's row alone. */
  lemma MarkVerifiedUpdatesOne(users: seq<UserRow>, k: nat)
    requires k < |users|
    requires UniqueUserIds(users)
    ensures MarkVerified(users, users[k].id) == users[k := users[k].(isVerified := Verified)]
  {
    var r := MarkVerified(users, users[k].id);
    forall i | 0 <= i < |users| && i != k
      ensures r[i] == users[i]
    {
      if i < k { assert users[i].id != users[k].id; } else { assert users[k].id != users[i].id; }
    }
  }

  // Building blocks for showing that the handlers keep `Valid`.

  /** Appending a user whose id, phone and email are all new keeps the user constraints. */
  lemma AppendUserKeepsUserConstraints(users: seq<UserRow>, row: UserRow)
    requires UniqueUserIds(users) && UniquePhones(users) && UniqueEmails(users) && FlagsAreBits(users)
    requires forall i :: 0 <= i < |users| ==> users[i].id != row.id
    requires !PhoneInUse(users, row.phone) && !EmailInUse(users, row.email)
    requires row.isVerified == Unverified || row.isVerified == Verified
    ensures var r := users + [row];
      UniqueUserIds(r) && UniquePhones(r) && UniqueEmails(r) && FlagsAreBits(r)
  {
  }

  /** Users are never removed and keep their ids, so every owner reference stays resolvable. */
  lemma OwnersSurvive(users: seq<UserRow>, users': seq<UserRow>, otps: seq<OtpRow>, scores: seq<ScoreRow>)
    requires |users| <= |users'|
    requires forall i :: 0 <= i < |users| ==> users'[i].id == users[i].id
    requires OtpOwnersExist(users, otps) && ScoreOwnersExist(users, scores)
    ensures OtpOwnersExist(users', otps) && ScoreOwnersExist(users', scores)
  {
    forall j | 0 <= j < |otps|
      ensures HasUser(users', otps[j].userId)
    {
      var m :| 0 <= m < |users| && users[m].id == otps[j].userId;
      assert users'[m].id == otps[j].userId;
    }
    forall j | 0 <= j < |scores|
      ensures HasUser(users', scores[j].userId)
    {
      var m :| 0 <= m < |users| && users[m].id == scores[j].userId;
      assert users'[m].id == scores[j].userId;
    }
  }

  /** Marking a user verified keeps the user constraints and every user's id. */
  lemma MarkVerifiedKeepsUserConstraints(users: seq<UserRow>, k: nat)
    requires k < |users|
    requires UniqueUserIds(users) && UniquePhones(users) && UniqueEmails(users) && FlagsAreBits(users)
    ensures var r := users[k := users[k].(isVerified := Verified)];
      && UniqueUserIds(r) && UniquePhones(r) && UniqueEmails(r) && FlagsAreBits(r)
      && |r| == |users|
      && forall i :: 0 <= i < |users| ==> r[i].id == users[i].id
  {
  }

  /** Appending an OTP with a fresh id, an existing owner and a well-formed code keeps the OTP constraints. */
  lemma AppendOtpKeepsOtpConstraints(users: seq<UserRow>, otps: seq<OtpRow>, o: OtpRow)
    requires UniqueOtpIds(otps) && OtpOwnersExist(users, otps) && OtpCodesWellFormed(otps)
    requires forall i :: 0 <= i < |otps| ==> otps[i].id != o.id
    requires HasUser(users, o.userId) && ValidOtpText(o.code)
    ensures var r := otps + [o];
      UniqueOtpIds(r) && OtpOwnersExist(users, r) && OtpCodesWellFormed(r)
  {
    var r := otps + [o];
    forall j | 0 <= j < |r|
      ensures HasUser(users, r[j].userId)
    {
      if j < |otps| { assert r[j] == otps[j]; }
    }
  }

  /** Removing one OTP keeps the OTP constraints. */
  lemma RemoveOtpKeepsOtpConstraints(users: seq<UserRow>, otps: seq<OtpRow>, k: nat)
    requires k < |otps|
    requires UniqueOtpIds(otps) && OtpOwnersExist(users, otps) && OtpCodesWellFormed(otps)
    ensures var r := otps[..k] + otps[k + 1..];
      UniqueOtpIds(r) && OtpOwnersExist(users, r) && OtpCodesWellFormed(r)
  {
    var r := otps[..k] + otps[k + 1..];
    assert forall j :: 0 <= j < |r| ==> r[j] == otps[if j < k then j else j + 1];
  }
}
