/** The choice `getServerTime` makes among its three time sources. The two
    HTTPS requests, their time-outs and the parsing of their answers are left
    out; each request's outcome is an optional epoch-millisecond value. */
module ServerTime {
  import opened Wrappers

  datatype ServerTimeSample = ServerTimeSample(serverMs: int, fetchedAtMs: int)

  datatype TimeSource = DateHeader | SecondaryService | LocalClock

  /** `if (x)` on the resolved value: null, NaN (both `None`) and 0 fail. */
  predicate Usable(r: Option<int>) {
    r.Some? && r.value != 0
  }

  /** The first usable source in the fixed order, the local clock last. */
  function ChosenSource(header: Option<int>, secondary: Option<int>): (s: TimeSource)
    ensures s == DateHeader <==> Usable(header)
    ensures s == SecondaryService <==> !Usable(header) && Usable(secondary)
    ensures s == LocalClock <==> !Usable(header) && !Usable(secondary)
  {
    if Usable(header) then DateHeader
    else if Usable(secondary) then SecondaryService
    else LocalClock
  }

  /** `getServerTime`: `fetchedAt` is the clock read before the requests,
      `localNow` the one after both failed. */
  function GetServerTime(header: Option<int>, secondary: Option<int>, fetchedAt: int, localNow: int)
    : (r: ServerTimeSample)
    ensures r.fetchedAtMs == fetchedAt
    ensures r.serverMs == match ChosenSource(header, secondary)
                          case DateHeader => header.value
                          case SecondaryService => secondary.value
                          case LocalClock => localNow
    ensures ChosenSource(header, secondary) == LocalClock && fetchedAt <= localNow ==> r.serverMs >= r.fetchedAtMs
    ensures r.serverMs != 0 || ChosenSource(header, secondary) == LocalClock
  {
    var server := if Usable(header) then header.value
                  else if Usable(secondary) then secondary.value
                  else localNow;
    ServerTimeSample(server, fetchedAt)
  }

  /** A usable secondary result wins over the local clock whatever the
      header request did, as long as the header was not usable. */
  lemma SecondaryBeatsLocalClock(header: Option<int>, v: int, fetchedAt: int, localNow: int)
    requires !Usable(header) && v != 0
    ensures GetServerTime(header, Some(v), fetchedAt, localNow).serverMs == v
  {
  }
}
