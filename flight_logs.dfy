/** KSP's FlightLogger as the mod uses it: the mission elapsed time and the event log. */
module FlightLogs {
  /** The MET fields FlightLogger exposes (met_years … met_secs). */
  datatype MissionTime = MissionTime(years: nat, days: nat, hours: nat, mins: nat, secs: nat)

  class FlightLogger {
    var eventLog: seq<string>
    var met: MissionTime

    constructor(met: MissionTime)
      ensures eventLog == [] && this.met == met
    {
      eventLog := [];
      this.met := met;
    }
  }
}
