/** The request and response shapes of the service, with the checks the
    schema layer applies to request bodies before any handler runs. */
module Schemas {
  import opened Clock

  /** Body of a registration request. */
  datatype Registration = Registration(name: string, phone: string, dateOfBirth: Date, email: string)

  /** A user as returned to clients: the registration fields plus id and verification flag. */
  datatype User = User(userId: int, name: string, phone: string, dateOfBirth: Date, email: string, isVerified: bool)

  /** Body of a score submission. */
  datatype ScoreInput = ScoreInput(userId: int, score: int)

  /** A stored score as returned to clients: the submitted fields plus timestamp and id. */
  datatype Score = Score(userId: int, score: int, timestamp: Instant, id: int)

  /** Body of an OTP verification request. */
  datatype OtpVerification = OtpVerification(phone: string, otp: string)

  datatype WeeklyScoresResponse = WeeklyScoresResponse(success: bool, weekly: seq<int>)

  const MinScore: int := 50
  const MaxScore: int := 500
  const OtpLength: int := 4

  /** The score field's bounds, both inclusive. */
  predicate ValidScore(score: int) {
    MinScore <= score <= MaxScore
  }

  /** The OTP field's minimum and maximum length, both 4. */
  predicate ValidOtpText(otp: string) {
    OtpLength <= |otp| <= OtpLength
  }
}
