/**
 * `single_timetable` (`skool::skolplattformen`): the API serves a student who
 * has exactly one timetable; none, or more than one, is an internal error.
 */
module SingleTimetable {
  import opened Wrappers
  import Schedule
  import AppErrors

  /** The listed timetables (or the listing's error), taken one at a time from the front. */
  function Single(listed: Result<seq<Schedule.Timetable>, Schedule.AuthError>): Result<Schedule.Timetable, AppErrors.AppError>
  {
    if listed.Err? then Err(AppErrors.FromAuthError(listed.error))
    else
      var ts := listed.value;
      if |ts| == 0 then Err(AppErrors.InternalError)
      else if |ts| > 1 then Err(AppErrors.InternalError)
      else Ok(ts[0])
  }

  /** The result is the timetable exactly when there is one and only one; otherwise an error answered 500, or 400 for bad credentials. */
  lemma SingleSpec(listed: Result<seq<Schedule.Timetable>, Schedule.AuthError>)
    ensures Single(listed).Ok? <==> listed.Ok? && |listed.value| == 1
    ensures Single(listed).Ok? ==> Single(listed).value == listed.value[0]
    ensures listed.Ok? && |listed.value| != 1 ==> Single(listed) == Err(AppErrors.InternalError)
    ensures Single(listed).Err? ==>
      AppErrors.StatusCode(Single(listed).error) == (if listed.Err? && listed.error.BadCredentials? then 400 else 500)
  {
    if listed.Err? {
      AppErrors.FromAuthErrorSpec(listed.error, 0);
    }
  }

  /** Only the first two timetables are looked at. */
  lemma FirstTwo(a: seq<Schedule.Timetable>, b: seq<Schedule.Timetable>)
    requires |a| >= 2 && |b| >= 2 && a[..2] == b[..2]
    ensures Single(Ok(a)) == Single(Ok(b))
  {
  }

  /** A response without a student timetable list leaves the student without a timetable. */
  lemma AbsentListFails()
    ensures Single(Ok(Schedule.StudentTimetables(None))) == Err(AppErrors.InternalError)
  {
  }

  /**
   * `single_timetable` as written: a listing error goes through the written
   * `From<AuthError>`, which never returns for a `ReqwestError`. `fuel` bounds
   * its calls; `None` means the call did not return.
   */
  function SingleAsWritten(listed: Result<seq<Schedule.Timetable>, Schedule.AuthError>, fuel: nat): Option<Result<Schedule.Timetable, AppErrors.AppError>>
  {
    if listed.Err? then
      var converted := AppErrors.FromAuthErrorAsWritten(listed.error, fuel);
      if converted.Some? then Some(Err(converted.value)) else None
    else Some(Single(listed))
  }

  /**
   * As written, a listing that failed with `ReqwestError` never gives an
   * answer; every other listing gives, once the conversion has the calls it
   * needs, what `Single` gives.
   */
  lemma SingleAsWrittenSpec(listed: Result<seq<Schedule.Timetable>, Schedule.AuthError>, fuel: nat)
    ensures SingleAsWritten(listed, fuel).None? <==> listed.Err? && (fuel == 0 || listed.error.ReqwestError?)
    ensures SingleAsWritten(listed, fuel).Some? ==> SingleAsWritten(listed, fuel).value == Single(listed)
  {
    if listed.Err? {
      AppErrors.FromAuthErrorSpec(listed.error, fuel);
    }
  }
}
