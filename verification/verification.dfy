/** Registration, OTP issue and OTP verification: the handlers that act on
    `users` and `otps`. */
module Verification {
  import opened Outcomes
  import opened Seqs
  import opened Clock
  import opened Schemas
  import opened Database

  /** Seconds from issue until an OTP expires. */
  const OtpLifetime: int := 60

  /** The code every issued OTP carries; it passes the OTP field check, so
      a user can always submit it. */
  function GenerateOtp(): (code: string)
    ensures ValidOtpText(code)
  {
    "1234"
  }

  /** The OTP row inserted at instant `now` for a user: a fresh id, the owner
      and phone given, a well-formed code, and an expiry one lifetime ahead. */
  function NewOtp(otps: seq<OtpRow>, userId: int, phone: string, now: Instant): (o: OtpRow)
    ensures forall i :: 0 <= i < |otps| ==> otps[i].id != o.id
    ensures o.userId == userId && o.phone == phone
    ensures ValidOtpText(o.code) && o.expiry == now + OtpLifetime
  {
    OtpRow(FreshOtpId(otps), userId, phone, GenerateOtp(), now + OtpLifetime)
  }

  function OtpOwnedBy(userId: int): OtpRow -> bool {
    (o: OtpRow) => o.userId == userId
  }

  predicate HasOtp(otps: seq<OtpRow>, userId: int) {
    exists i :: 0 <= i < |otps| && otps[i].userId == userId
  }

  /** Row `k` is one of the user's OTPs and none of the user's OTPs expires later. */
  predicate IsLatestOtp(otps: seq<OtpRow>, userId: int, k: nat) {
    && k < |otps|
    && otps[k].userId == userId
    && forall j :: 0 <= j < |otps| && otps[j].userId == userId ==> otps[j].expiry <= otps[k].expiry
  }

  /** The user's OTP ordered first by descending expiry; among equal expiries the
      earliest row is taken. */
  function LatestOtp(otps: seq<OtpRow>, userId: int): (r: Option<nat>)
    ensures r.None? <==> !HasOtp(otps, userId)
    ensures r.Some? ==> IsLatestOtp(otps, userId, r.value)
    ensures r.Some? ==> forall j :: 0 <= j < r.value && otps[j].userId == userId ==> otps[j].expiry < otps[r.value].expiry
  {
    if |otps| == 0 then None
    else
      var init := otps[..|otps| - 1];
      var last := otps[|otps| - 1];
      var prev := LatestOtp(init, userId);
      if last.userId != userId then prev
      else if prev.None? || init[prev.value].expiry < last.expiry then Some(|otps| - 1)
      else prev
  }

  /** The OTP a verification for this phone acts on, if there is one. */
  function SelectedOtp(db: Db, phone: string): (r: Option<nat>)
    ensures r.Some? ==> exists i :: 0 <= i < |db.users| && db.users[i].phone == phone && IsLatestOtp(db.otps, db.users[i].id, r.value)
  {
    match UserByPhone(db.users, phone)
    case None => None
    case Some(i) => LatestOtp(db.otps, db.users[i].id)
  }

  /** `POST /register/`: rejects a phone number in use, then an email in use;
      otherwise inserts an unverified user, deletes an OTP already stored for
      the new id, and stores a fresh OTP for it. */
  function RegisterUser(db: Db, reg: Registration, now: Instant): (out: Reply<User>)
    ensures PhoneInUse(db.users, reg.phone) ==> out == Reply(Err(DuplicatePhone), db)
    ensures !PhoneInUse(db.users, reg.phone) && EmailInUse(db.users, reg.email) ==> out == Reply(Err(DuplicateEmail), db)
    ensures !PhoneInUse(db.users, reg.phone) && !EmailInUse(db.users, reg.email) ==> out.result.Ok?
    ensures out.result.Ok? ==>
      var u := out.result.value;
      && u == User(u.userId, reg.name, reg.phone, reg.dateOfBirth, reg.email, false)
      && (forall i :: 0 <= i < |db.users| ==> db.users[i].id != u.userId)
      && out.db.users == db.users + [UserRow(u.userId, reg.phone, reg.name, reg.dateOfBirth, reg.email, Unverified)]
      && out.db.scores == db.scores
  {
    if UserByPhone(db.users, reg.phone).Some? then Reply(Err(DuplicatePhone), db)
    else if UserByEmail(db.users, reg.email).Some? then Reply(Err(DuplicateEmail), db)
    else
      var row := UserRow(FreshUserId(db.users), reg.phone, reg.name, reg.dateOfBirth, reg.email, Unverified);
      var kept := match FirstMatch(db.otps, OtpOwnedBy(row.id))
        case None => db.otps
        case Some(k) => DeleteOtp(db.otps, db.otps[k].id);
      Reply(Ok(AsUser(row)), Db(db.users + [row], kept + [NewOtp(kept, row.id, reg.phone, now)], db.scores))
  }

  /** `POST /request-otp/{phone}`: stores one more OTP for the phone's owner and
      deletes none, so several OTPs of one user can coexist. */
  function RequestOtp(db: Db, phone: string, now: Instant): (out: Reply<()>)
    ensures !PhoneInUse(db.users, phone) ==> out == Reply(Err(UserNotFound), db)
    ensures PhoneInUse(db.users, phone) ==>
      && out.result.Ok?
      && out.db.users == db.users
      && out.db.scores == db.scores
      && |out.db.otps| == |db.otps| + 1
      && out.db.otps[..|db.otps|] == db.otps
      && var o := out.db.otps[|db.otps|];
      && o.phone == phone && o.code == GenerateOtp() && o.expiry == now + OtpLifetime
      && (forall i :: 0 <= i < |db.otps| ==> db.otps[i].id != o.id)
      && exists i :: 0 <= i < |db.users| && db.users[i].phone == phone && db.users[i].id == o.userId
  {
    match UserByPhone(db.users, phone)
    case None => Reply(Err(UserNotFound), db)
    case Some(i) =>
      var otps := db.otps + [NewOtp(db.otps, db.users[i].id, phone, now)];
      assert otps[..|db.otps|] == db.otps;
      Reply(Ok(()), db.(otps := otps))
  }

  /** The four-way decision on the selected OTP row `k` of user `userId`. */
  function Decide(db: Db, userId: int, k: nat, code: string, now: Instant): (out: Reply<()>)
    requires k < |db.otps|
    ensures out.result.Ok? <==> now <= db.otps[k].expiry && db.otps[k].code == code
    ensures db.otps[k].expiry < now ==> out.result == Err(OtpExpired) && out.db.users == db.users
    ensures now <= db.otps[k].expiry && db.otps[k].code != code ==> out == Reply(Err(OtpMismatch), db)
    ensures out.result != Err(OtpMismatch) ==>
      forall x :: multiset(out.db.otps)[x] == if x.id != db.otps[k].id then multiset(db.otps)[x] else 0
    ensures out.db.scores == db.scores
  {
    var otp := db.otps[k];
    if otp.expiry < now then Reply(Err(OtpExpired), db.(otps := DeleteOtp(db.otps, otp.id)))
    else if otp.code != code then Reply(Err(OtpMismatch), db)
    else Reply(Ok(()), Db(MarkVerified(db.users, userId), DeleteOtp(db.otps, otp.id), db.scores))
  }

  /** `POST /verify-otp/`. Only an expired OTP or a success changes state, and
      scores never change. */
  function VerifyOtp(db: Db, v: OtpVerification, now: Instant): (out: Reply<()>)
    ensures !ValidOtpText(v.otp) ==> out == Reply(Err(InvalidInput), db)
    ensures ValidOtpText(v.otp) && !PhoneInUse(db.users, v.phone) ==> out == Reply(Err(UserNotFound), db)
    ensures out.result.Err? && out.result.error != OtpExpired ==> out.db == db
    ensures out.db.scores == db.scores
    ensures out.result.Ok? ==> ValidOtpText(v.otp) && SelectedOtp(db, v.phone).Some?
  {
    if !ValidOtpText(v.otp) then Reply(Err(InvalidInput), db)
    else match UserByPhone(db.users, v.phone)
      case None => Reply(Err(UserNotFound), db)
      case Some(i) =>
        match LatestOtp(db.otps, db.users[i].id)
        case None => Reply(Err(OtpNotFound), db)
        case Some(k) => Decide(db, db.users[i].id, k, v.otp, now)
  }

  /** What verification does once row `k` of user row `i` has been selected. */
  predicate VerifyEffect(db: Db, v: OtpVerification, now: Instant, i: nat, k: nat, out: Reply<()>)
    requires i < |db.users| && k < |db.otps|
  {
    var otp := db.otps[k];
    var rest := db.otps[..k] + db.otps[k + 1..];
    && (otp.expiry < now ==> out == Reply(Err(OtpExpired), db.(otps := rest)))
    && (now <= otp.expiry && otp.code != v.otp ==> out == Reply(Err(OtpMismatch), db))
    && (now <= otp.expiry && otp.code == v.otp ==>
          out == Reply(Ok(()), Db(db.users[i := db.users[i].(isVerified := Verified)], rest, db.scores)))
  }

  /** For the owner (row `i`) of the phone: with no OTP the request fails with
      `OtpNotFound` and changes nothing; otherwise it acts on an OTP with the
      latest expiry and decides expired / mismatch / success on it, deleting
      exactly that row when expired or successful. An expiry equal to `now` is
      not expired. */
  lemma VerifyDecision(db: Db, v: OtpVerification, now: Instant, i: nat)
    requires Valid(db)
    requires ValidOtpText(v.otp)
    requires i < |db.users| && db.users[i].phone == v.phone
    ensures !HasOtp(db.otps, db.users[i].id) ==> VerifyOtp(db, v, now) == Reply(Err(OtpNotFound), db)
    ensures HasOtp(db.otps, db.users[i].id) ==>
      exists k :: IsLatestOtp(db.otps, db.users[i].id, k) && VerifyEffect(db, v, now, i, k, VerifyOtp(db, v, now))
  {
    assert UserByPhone(db.users, v.phone) == Some(i);
    var uid := db.users[i].id;
    if HasOtp(db.otps, uid) {
      var k := LatestOtp(db.otps, uid).value;
      DecideEffect(db, v, now, i, k);
      assert VerifyOtp(db, v, now) == Decide(db, uid, k, v.otp, now);
    }
  }

  /** The decision on row `k` for user row `i` has the effect `VerifyEffect` describes. */
  lemma DecideEffect(db: Db, v: OtpVerification, now: Instant, i: nat, k: nat)
    requires UniqueUserIds(db.users) && UniqueOtpIds(db.otps)
    requires i < |db.users| && k < |db.otps|
    ensures VerifyEffect(db, v, now, i, k, Decide(db, db.users[i].id, k, v.otp, now))
  {
    DeleteOtpRemovesOne(db.otps, k);
    MarkVerifiedUpdatesOne(db.users, i);
  }

  /** A wrong code on a live OTP leaves everything in place, so submitting the
      stored code at any instant up to its expiry then succeeds. */
  lemma RetryAfterMismatch(db: Db, v: OtpVerification, now: Instant, later: Instant)
    requires Valid(db)
    requires VerifyOtp(db, v, now).result == Err(OtpMismatch)
    ensures VerifyOtp(db, v, now).db == db
    ensures SelectedOtp(db, v.phone).Some?
    ensures var k := SelectedOtp(db, v.phone).value;
      later <= db.otps[k].expiry ==> VerifyOtp(db, OtpVerification(v.phone, db.otps[k].code), later).result.Ok?
  {
  }

  /** A fresh user id owns no stored OTP. */
  lemma FreshUserHasNoOtp(db: Db)
    requires Valid(db)
    ensures !HasOtp(db.otps, FreshUserId(db.users))
  {
    var uid := FreshUserId(db.users);
    forall j | 0 <= j < |db.otps|
      ensures db.otps[j].userId != uid
    {
      assert HasUser(db.users, db.otps[j].userId);
      var m :| 0 <= m < |db.users| && db.users[m].id == db.otps[j].userId;
    }
  }

  /** A successful registration stores exactly one new OTP, for the new user,
      with code "1234" and expiry 60 seconds after `now`, under a fresh id;
      no earlier OTP is removed, since none can belong to a fresh user id. */
  lemma RegisterIssuesOneOtp(db: Db, reg: Registration, now: Instant)
    requires Valid(db)
    requires RegisterUser(db, reg, now).result.Ok?
    ensures var out := RegisterUser(db, reg, now);
      && |out.db.otps| == |db.otps| + 1
      && out.db.otps[..|db.otps|] == db.otps
      && var o := out.db.otps[|db.otps|];
      && o == OtpRow(o.id, out.result.value.userId, reg.phone, "1234", now + 60)
      && forall j :: 0 <= j < |db.otps| ==> db.otps[j].id != o.id
  {
    FreshUserHasNoOtp(db);
    var uid := FreshUserId(db.users);
    assert FirstMatch(db.otps, OtpOwnedBy(uid)).None?;
    var out := RegisterUser(db, reg, now);
    assert out.db.otps == db.otps + [NewOtp(db.otps, uid, reg.phone, now)];
    assert out.db.otps[..|db.otps|] == db.otps;
  }

  /** Registration leaves a valid database valid. */
  lemma RegisterPreservesValid(db: Db, reg: Registration, now: Instant)
    requires Valid(db)
    ensures Valid(RegisterUser(db, reg, now).db)
  {
    var out := RegisterUser(db, reg, now);
    if out.result.Ok? {
      RegisterIssuesOneOtp(db, reg, now);
      var row := out.db.users[|db.users|];
      AppendUserKeepsUserConstraints(db.users, row);
      OwnersSurvive(db.users, out.db.users, db.otps, db.scores);
      var o := out.db.otps[|db.otps|];
      assert out.db.users[|db.users|].id == o.userId;
      AppendOtpKeepsOtpConstraints(out.db.users, db.otps, o);
      assert out.db.otps == db.otps + [o];
    }
  }

  /** Requesting an OTP leaves a valid database valid. */
  lemma RequestOtpPreservesValid(db: Db, phone: string, now: Instant)
    requires Valid(db)
    ensures Valid(RequestOtp(db, phone, now).db)
  {
    var out := RequestOtp(db, phone, now);
    if PhoneInUse(db.users, phone) {
      var o := out.db.otps[|db.otps|];
      AppendOtpKeepsOtpConstraints(db.users, db.otps, o);
      assert out.db.otps == db.otps + [o];
    }
  }

  /** Deleting one OTP, with or without marking one user verified, keeps the database valid. */
  lemma ConsumeKeepsValid(db: Db, i: nat, k: nat)
    requires Valid(db)
    requires i < |db.users| && k < |db.otps|
    ensures var rest := db.otps[..k] + db.otps[k + 1..];
      && Valid(db.(otps := rest))
      && Valid(Db(db.users[i := db.users[i].(isVerified := Verified)], rest, db.scores))
  {
    var rest := db.otps[..k] + db.otps[k + 1..];
    RemoveOtpKeepsOtpConstraints(db.users, db.otps, k);
    MarkVerifiedKeepsUserConstraints(db.users, i);
    var users' := db.users[i := db.users[i].(isVerified := Verified)];
    OwnersSurvive(db.users, users', rest, db.scores);
  }

  /** Deciding on any OTP row of any user leaves a valid database valid. */
  lemma DecidePreservesValid(db: Db, i: nat, k: nat, code: string, now: Instant)
    requires Valid(db)
    requires i < |db.users| && k < |db.otps|
    ensures Valid(Decide(db, db.users[i].id, k, code, now).db)
  {
    DeleteOtpRemovesOne(db.otps, k);
    MarkVerifiedUpdatesOne(db.users, i);
    ConsumeKeepsValid(db, i, k);
  }

  /** Verification leaves a valid database valid. */
  lemma VerifyOtpPreservesValid(db: Db, v: OtpVerification, now: Instant)
    requires Valid(db)
    ensures Valid(VerifyOtp(db, v, now).db)
  {
    if ValidOtpText(v.otp) {
      match UserByPhone(db.users, v.phone)
      case None =>
      case Some(i) =>
        match LatestOtp(db.otps, db.users[i].id)
        case None =>
        case Some(k) => DecidePreservesValid(db, i, k, v.otp, now);
    }
  }

  /** Right after a registration, verification for the new phone decides on
      the OTP the registration stored, the new last row. */
  lemma RegisteredOtpDecides(db: Db, reg: Registration, now: Instant, later: Instant)
    requires Valid(db)
    requires RegisterUser(db, reg, now).result.Ok?
    ensures var db1 := RegisterUser(db, reg, now).db;
      var v := OtpVerification(reg.phone, GenerateOtp());
      && |db1.users| == |db.users| + 1
      && |db1.otps| == |db.otps| + 1
      && db1.otps[|db.otps|].expiry == now + OtpLifetime
      && db1.otps[|db.otps|].code == GenerateOtp()
      && VerifyEffect(db1, v, later, |db.users|, |db.otps|, VerifyOtp(db1, v, later))
  {
    var db1 := RegisterUser(db, reg, now).db;
    RegisterIssuesOneOtp(db, reg, now);
    RegisterPreservesValid(db, reg, now);
    FreshUserHasNoOtp(db);
    assert db1.users[|db.users|].phone == reg.phone;
    forall j | 0 <= j < |db1.otps| - 1
      ensures db1.otps[j].userId != db1.users[|db.users|].id
    {
      assert db1.otps[j] == db.otps[j];
    }
    SoleOtpDecides(db1, OtpVerification(reg.phone, GenerateOtp()), later, |db.users|);
  }

  /** Registering and then submitting the issued code: within 60 seconds the
      new user is verified and its OTP consumed; later the OTP is expired and
      deleted, and the user stays unverified. */
  lemma RegisterThenVerify(db: Db, reg: Registration, now: Instant, later: Instant)
    requires Valid(db)
    requires RegisterUser(db, reg, now).result.Ok?
    ensures var reg1 := RegisterUser(db, reg, now);
      var out := VerifyOtp(reg1.db, OtpVerification(reg.phone, GenerateOtp()), later);
      && (later <= now + OtpLifetime ==>
            && out.result.Ok?
            && out.db.users == db.users + [reg1.db.users[|db.users|].(isVerified := Verified)]
            && out.db.otps == db.otps)
      && (later > now + OtpLifetime ==>
            && out.result == Err(OtpExpired)
            && out.db.users == reg1.db.users
            && out.db.otps == db.otps)
  {
    var db1 := RegisterUser(db, reg, now).db;
    RegisteredOtpDecides(db, reg, now, later);
    RegisterIssuesOneOtp(db, reg, now);
    SpliceLast(db.otps, db1.otps);
    var row := db1.users[|db.users|];
    assert db1.users == db.users + [row];
    ReplaceLast(db.users, row, row.(isVerified := Verified));
  }

  /** When the phone's owner has exactly one OTP, the last row, verification decides on that row. */
  lemma SoleOtpDecides(db: Db, v: OtpVerification, now: Instant, i: nat)
    requires Valid(db)
    requires ValidOtpText(v.otp)
    requires i < |db.users| && db.users[i].phone == v.phone
    requires |db.otps| > 0 && db.otps[|db.otps| - 1].userId == db.users[i].id
    requires forall j :: 0 <= j < |db.otps| - 1 ==> db.otps[j].userId != db.users[i].id
    ensures VerifyEffect(db, v, now, i, |db.otps| - 1, VerifyOtp(db, v, now))
  {
    var uid, last := db.users[i].id, |db.otps| - 1;
    assert UserByPhone(db.users, v.phone) == Some(i);
    assert HasOtp(db.otps, uid);
    assert LatestOtp(db.otps, uid) == Some(last);
    DecideEffect(db, v, now, i, last);
    assert VerifyOtp(db, v, now) == Decide(db, uid, last, v.otp, now);
  }
}
