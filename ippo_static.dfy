/**
 * The static helpers of the middle generation (Runtime/Static.cs). Broadcast, Parse,
 * FindEVAPart and ResetPartGlow have the newest generation's bodies, reading the Messages and
 * Glow flags from NotificationSettings, and are the members of RuntimeStatic; EngineIsActive is
 * Engines.EngineIsActive. Only the flight log's stamp differs.
 */
module IppoStatic {
  import opened FlightLogs
  import RuntimeStatic

  /** FlightLog: one new event-log entry, the MET stamp closed by "] " followed by the message. */
  method FlightLog(logger: FlightLogger, msg: string)
    modifies logger
    ensures logger.met == old(logger.met)
    ensures logger.eventLog == old(logger.eventLog) + [RuntimeStatic.Stamp(logger.met, "] ") + msg]
  {
    var met := logger.met;
    var sb := "[";
    if met.years > 0 {
      sb := sb + (RuntimeStatic.OptionalField(met.years));
    }
    if met.days > 0 {
      sb := sb + (RuntimeStatic.OptionalField(met.days));
    }
    assert sb == "[" + RuntimeStatic.OptionalField(met.years) + RuntimeStatic.OptionalField(met.days);
    sb := sb + RuntimeStatic.Clock(met);
    sb := sb + "] ";
    logger.eventLog := logger.eventLog + [sb + msg];
  }
}
