/** The configuration check run at start-up: both ports in range and a positive cap. */
module Configuration {
  import opened Common
  import opened Records
  import History

  /** The three integer settings `validate` reads. */
  datatype Settings = Settings(gpsPort: int, webPort: int, maxPointsPerSender: int)

  /** The values used when no environment variable overrides them. */
  const Defaults: Settings := Settings(2223, 5000, 1000)

  const GpsPortError: string := "GPS_PORT must be between 1 and 65535"
  const WebPortError: string := "WEB_PORT must be between 1 and 65535"
  const CapError: string := "MAX_POINTS_PER_SENDER must be greater than 0"

  /** A TCP port number: 1 to 65535, both bounds included. */
  predicate ValidPort(p: int) {
    1 <= p <= 65535
  }

  /** `Config.validate`: `True`, or the `ValueError` of the first check that fails. */
  function Validate(c: Settings): (r: Result<bool, string>)
    ensures r.Success? <==> ValidPort(c.gpsPort) && ValidPort(c.webPort) && c.maxPointsPerSender >= 1
    ensures r.Success? ==> r.value
    ensures r.Failure? ==> r.error in {GpsPortError, WebPortError, CapError}
  {
    if c.gpsPort < 1 || c.gpsPort > 65535 then Failure(GpsPortError)
    else if c.webPort < 1 || c.webPort > 65535 then Failure(WebPortError)
    else if c.maxPointsPerSender < 1 then Failure(CapError)
    else Success(true)
  }

  /** The checks run in order, so the reported error names the first bad setting. */
  lemma ErrorNamesFirstBadSetting(c: Settings)
    ensures !ValidPort(c.gpsPort) ==> Validate(c) == Failure(GpsPortError)
    ensures ValidPort(c.gpsPort) && !ValidPort(c.webPort) ==> Validate(c) == Failure(WebPortError)
    ensures ValidPort(c.gpsPort) && ValidPort(c.webPort) && c.maxPointsPerSender < 1 ==> Validate(c) == Failure(CapError)
  {
  }

  /** The default settings pass, and so do the boundary ports 1 and 65535. */
  lemma DefaultsAndBoundsAccepted(cap: int)
    requires cap >= 1
    ensures Validate(Defaults) == Success(true)
    ensures Validate(Settings(1, 65535, cap)) == Success(true)
    ensures Validate(Settings(65535, 1, cap)) == Success(true)
  {
  }

  /** A GPS port of 70000, a web port of 0 and a cap of 0 are each rejected on their own. */
  lemma OutOfRangeRejected()
    ensures Validate(Defaults.(gpsPort := 70000)) == Failure(GpsPortError)
    ensures Validate(Defaults.(webPort := 0)) == Failure(WebPortError)
    ensures Validate(Defaults.(maxPointsPerSender := 0)) == Failure(CapError)
  {
  }

  /** With settings that passed the check, the store invariant holds after any batch: every
      sender's history stays within the cap and ends with its latest position. */
  lemma ValidatedCapBoundsStore(c: Settings, st: History.Store, ps: seq<Record>)
    requires Validate(c).Success?
    requires History.Consistent(st, c.maxPointsPerSender)
    ensures History.Consistent(History.AppendBatch(st, ps, c.maxPointsPerSender), c.maxPointsPerSender)
  {
    History.AppendBatchConsistent(st, ps, c.maxPointsPerSender);
  }
}
