/** The audit logger: `buffer` is pushed to, replaced and unshifted in place. */
module AuditLogger {
  import opened Wrappers
  import opened AuditProtocol

  class Logging {
    var config: Config
    var buffer: seq<Entry>
    /** The batches held by suspended flushes, oldest first. */
    var suspended: seq<seq<Entry>>
    /** Running flush intervals; `flushInterval` says whether the handle of the latest is held. */
    var timers: nat
    var flushInterval: bool
    ghost var shipped: seq<Entry>
    ghost var accepted: seq<Entry>

    constructor ()
      ensures State() == START && Conserved(State()) && InOrder(State())
    {
      config := Config(true, LevelAll, false);
      buffer, suspended, shipped, accepted, timers, flushInterval := [], [], [], [], 0, false;
    }

    ghost function State(): Logger
      reads this
    {
      Logger(config, buffer, suspended, shipped, accepted, timers, flushInterval)
    }

    /** Fields that are not given keep their values. */
    method Initialize(partial: PartialConfig)
      modifies this
      ensures State() == Apply(old(State()), Configure(partial))
    {
      if partial.enabled.Some? {
        config := config.(enabled := partial.enabled.value);
      }
      if partial.logLevel.Some? {
        config := config.(logLevel := partial.logLevel.value);
      }
      if partial.hasShipper.Some? {
        config := config.(hasShipper := partial.hasShipper.value);
      }
      if config.enabled {
        timers := timers + 1;
        flushInterval := true;
      }
    }

    method LogEvent(entry: Entry)
      modifies this
      ensures State() == Apply(old(State()), LogEntry(entry))
    {
      if !config.enabled { return; }
      if !ShouldLog(config.logLevel, entry.severity) { return; }
      buffer := buffer + [entry];
      accepted := accepted + [entry];
      if |buffer| >= BUFFER_SIZE {
        StartFlush();
      }
    }

    /** flush() up to the point where it waits for the shipper. */
    method StartFlush()
      modifies this
      ensures State() == BeginFlush(old(State()))
    {
      if |buffer| == 0 || !config.hasShipper { return; }
      var logsToShip := buffer;
      buffer := [];
      suspended := suspended + [logsToShip];
    }

    /** A flush interval fires. */
    method Tick()
      modifies this
      ensures State() == Apply(old(State()), FlushTick)
    {
      if timers > 0 {
        StartFlush();
      }
    }

    /** shutdown() up to the point where it waits for the last flush. */
    method BeginShutdown()
      modifies this
      ensures State() == Apply(old(State()), Shutdown)
    {
      if flushInterval {
        timers := if timers > 0 then timers - 1 else 0;
        flushInterval := false;
      }
      StartFlush();
    }

    /** flush() after the shipper has answered for the k-th suspended batch. */
    method FinishFlush(k: nat, success: bool)
      requires k < |suspended|
      modifies this
      ensures State() == Apply(old(State()), if success then ShipSucceeds(k) else ShipFails(k))
    {
      var logsToShip := suspended[k];
      suspended := suspended[..k] + suspended[k + 1..];
      if success {
        shipped := shipped + logsToShip;
      } else {
        buffer := logsToShip + buffer;
      }
    }
  }
}
