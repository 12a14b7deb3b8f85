/** The part of the plugin's start-up that reaches the bricklet: without a
    bricklet UID nothing is attempted; otherwise the configuration session
    runs with the backlight on, the cursor off and blinking off. */
module Plugin {
  import opened Events
  import opened Configuration

  /** The `onStart` hook from the UID check on. `uid` is the bricklet UID
      parameter. */
  method OnStart(uid: string, file: CharFile, failing: set<nat>) returns (trace: seq<Event>)
    ensures |uid| == 0 ==> trace == [LogError(NoUid)]
    ensures |uid| > 0 ==> trace == ConfigurationSession(true, false, false, file, failing)
  {
    if |uid| == 0 {
      trace := StatusToLog(STATUS_LEVEL_ERROR, NoUid);
      return;
    }
    trace := SetConfiguration(true, false, false, file, failing);
  }

  /** With a UID, the session starts with the connect, switches the
      backlight on and sets the cursor and its blinking off, unless one of
      those calls raises. */
  lemma StartUpSetup(file: CharFile, failing: set<nat>)
    requires 0 !in failing && 1 !in failing && 2 !in failing
    ensures var t := ConfigurationSession(true, false, false, file, failing);
      |t| > 3 && t[..3] == [Connect, Backlight(true), SetConfig(false, false)]
  {
    SetupSucceeds(true, false, false, file, failing);
    AfterSetupEnds(file, 3, failing);
  }
}
