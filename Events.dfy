/** Everything the plugin does that can be observed from outside: calls on the
    LCD 20x4 bricklet (through its IP connection) and status lines in the hub's
    log. A session of the plugin is modelled as the sequence of these events. */
module Events {

  /** Status levels understood by StatusToLog. */
  const STATUS_LEVEL_OK: int := 1
  const STATUS_LEVEL_ERROR: int := 5

  /** The status lines the plugin writes, with the values each one reports. */
  datatype Message =
    | NoUid                              // the bricklet UID parameter is empty
    | SetConfigFailed                    // the configuration session raised
    | CharIndexOutOfRange(id: int)       // a custom character id outside 0-7
    | NoCustomChars                      // the custom character array is empty
    | CustomCharFileFailed               // reading or loading the custom characters raised
    | NoJsonString                       // the text device holds an empty string
    | WrongLine(line: int)               // a directive's line is outside 0-3
    | WrongPosition(position: int)       // a directive's position is outside 0-19
    | LineWritten(line: int, position: int, text: string)
    | WriteFailed(unit: int, json: string)  // the line-write session raised

  /** One observable effect. */
  datatype Event =
    | Connect
    | Disconnect
    | Backlight(on: bool)
    | SetConfig(cursor: bool, blinking: bool)
    | SetCustomCharacter(index: int, character: seq<string>)
    | WriteLine(line: int, position: int, text: string)
    | ClearDisplay
    | LogOk(msg: Message)
    | LogError(msg: Message)

  /** Routes a status line to the hub's normal log (OK level) or error log
      (ERROR level); any other level is dropped. */
  function StatusToLog(level: int, msg: Message): seq<Event> {
    (if level == STATUS_LEVEL_OK then [LogOk(msg)] else []) +
    (if level == STATUS_LEVEL_ERROR then [LogError(msg)] else [])
  }

  /** The two checks are independent, but as the levels differ at most one
      of them fires: a status line lands in exactly one log when its level
      is OK or ERROR, and nowhere otherwise. */
  lemma StatusToLogRoutes(level: int, msg: Message)
    ensures var r := StatusToLog(level, msg);
      && |r| <= 1
      && (r == [LogOk(msg)] <==> level == STATUS_LEVEL_OK)
      && (r == [LogError(msg)] <==> level == STATUS_LEVEL_ERROR)
      && (r == [] <==> level != STATUS_LEVEL_OK && level != STATUS_LEVEL_ERROR)
  {
    assert [LogOk(msg)][0] != [LogError(msg)][0];
  }

  /** How a stretch of a session ended: it ran to its end, it logged an
      error and returned early, or something in it raised an exception. */
  datatype Exit = Finished | Aborted | Raised

  /** The events of a stretch of a session, how it ended, and the position
      (counted from 0 over the whole session) of the next device call. */
  datatype Run = Run(events: seq<Event>, exit: Exit, next: nat)

  /** The stretch `r` preceded by the events `prefix`. */
  function Then(prefix: seq<Event>, r: Run): Run {
    Run(prefix + r.events, r.exit, r.next)
  }

  lemma ThenThen(a: seq<Event>, b: seq<Event>, r: Run)
    ensures Then(a, Then(b, r)) == Then(a + b, r)
  {
    assert a + (b + r.events) == (a + b) + r.events;
  }

  /** Issues the device calls `calls` in order, the first being the `next`-th
      device call of the session. The peripheral is described by `failing`:
      the positions of the device calls that raise. A call that raises has no
      effect and ends the stretch; it still takes up its position, so the
      next call after it (a disconnect, say) is the one after that. */
  function Issue(calls: seq<Event>, next: nat, failing: set<nat>): Run
    decreases |calls|
  {
    if calls == [] then Run([], Finished, next)
    else if next in failing then Run([], Raised, next + 1)
    else Then([calls[0]], Issue(calls[1..], next + 1, failing))
  }

  /** Issuing calls emits a prefix of them: all of them when none of their
      positions fails, and otherwise those before the first failing one. */
  lemma {:induction false} IssueOutcome(calls: seq<Event>, next: nat, failing: set<nat>)
    decreases |calls|
    ensures var r := Issue(calls, next, failing);
      && r.exit != Aborted
      && r.events <= calls
      && (r.exit == Finished <==> forall k | next <= k < next + |calls| :: k !in failing)
      && (r.exit == Finished ==> r.events == calls && r.next == next + |calls|)
      && (r.exit == Raised ==>
            r.next == next + |r.events| + 1 && r.next - 1 in failing &&
            forall k | next <= k < r.next - 1 :: k !in failing)
  {
    if calls != [] && next !in failing {
      IssueOutcome(calls[1..], next + 1, failing);
      assert calls == [calls[0]] + calls[1..];
    }
  }

  /** Issuing two stretches of calls is issuing the first, then, if it
      finished, the second. */
  lemma {:induction false} IssueAppend(a: seq<Event>, b: seq<Event>, next: nat, failing: set<nat>)
    decreases |a|
    ensures Issue(a + b, next, failing) ==
      var ra := Issue(a, next, failing);
      if ra.exit != Finished then ra else Then(ra.events, Issue(b, ra.next, failing))
  {
    if a != [] && next !in failing {
      assert (a + b)[0] == a[0] && (a + b)[1..] == a[1..] + b;
      IssueAppend(a[1..], b, next + 1, failing);
      var rest := Issue(a[1..], next + 1, failing);
      if rest.exit == Finished {
        assert [a[0]] + rest.events + Issue(b, rest.next, failing).events
          == [a[0]] + (rest.events + Issue(b, rest.next, failing).events);
      }
    } else if a == [] {
      assert a + b == b;
    }
  }
}
