/** The line-write session: what the plugin does with the JSON text of its
    text device each time that text changes. It connects to the bricklet,
    runs the directives of the decoded array one by one (bounds checks, the
    optional clear, the text write, an OK status line) and disconnects. */
module LineWriter {
  import opened Events

  /** Geometry of the LCD 20x4 display. */
  const LINES: int := 4
  const COLUMNS: int := 20

  /** A blank line as wide as the display; writing it at column 0 clears a line. */
  const EMPTY_LINE: string := "                    "

  /** One element of the decoded JSON array. A `Directive` carries the values
      its "line", "position", "clear" and "text" keys decode to; `Malformed`
      stands for an element on which reading one of those keys raises (a
      missing key, a value `int()` refuses, an element that is not an object). */
  datatype Entry =
    | Directive(line: int, position: int, clear: int, text: string)
    | Malformed

  /** The result of decoding the device text as JSON: a failure, or the
      elements iterated over. */
  datatype Decoded = Undecodable | Entries(items: seq<Entry>)

  predicate LineInRange(line: int) {
    0 <= line <= LINES - 1
  }

  predicate PositionInRange(position: int) {
    0 <= position <= COLUMNS - 1
  }

  /** A directive that passes both bounds checks. */
  predicate Accepted(e: Entry) {
    e.Directive? && LineInRange(e.line) && PositionInRange(e.position)
  }

  /** The device call the clear mode asks for before the text is written. */
  function ClearCalls(line: int, clear: int): seq<Event> {
    (if clear == 1 then [WriteLine(line, 0, EMPTY_LINE)] else []) +
    (if clear == 2 then [ClearDisplay] else [])
  }

  /** The device calls of one accepted directive. */
  function DirectiveCalls(line: int, position: int, clear: int, text: string): seq<Event> {
    ClearCalls(line, clear) + [WriteLine(line, position, text)]
  }

  /** One directive of the loop, starting with the `next`-th device call. */
  function RunEntry(e: Entry, next: nat, failing: set<nat>): Run {
    match e
    case Malformed => Run([], Raised, next)
    case Directive(line, position, clear, text) =>
      if !LineInRange(line) then
        Run(StatusToLog(STATUS_LEVEL_ERROR, WrongLine(line)), Aborted, next)
      else if !PositionInRange(position) then
        Run(StatusToLog(STATUS_LEVEL_ERROR, WrongPosition(position)), Aborted, next)
      else
        var d := Issue(DirectiveCalls(line, position, clear, text), next, failing);
        if d.exit == Finished then
          Run(d.events + StatusToLog(STATUS_LEVEL_OK, LineWritten(line, position, text)), Finished, d.next)
        else d
  }

  /** The loop over the directives, in array order, up to the first one that
      does not finish. */
  function RunEntries(items: seq<Entry>, next: nat, failing: set<nat>): Run
    decreases |items|
  {
    if items == [] then Run([], Finished, next)
    else
      var r := RunEntry(items[0], next, failing);
      if r.exit != Finished then r
      else Then(r.events, RunEntries(items[1..], r.next, failing))
  }

  /** The end of the session after the loop: an early return adds nothing, an
      exception adds one error line, and a finished loop is followed by the
      disconnect (itself a device call that may raise). */
  function Close(unit: int, json: string, r: Run, failing: set<nat>): seq<Event> {
    r.events +
    match r.exit
    case Aborted => []
    case Raised => StatusToLog(STATUS_LEVEL_ERROR, WriteFailed(unit, json))
    case Finished =>
      if r.next in failing then StatusToLog(STATUS_LEVEL_ERROR, WriteFailed(unit, json))
      else [Disconnect]
  }

  /** The whole session for the device text `json` of unit `unit`, which
      decodes to `decoded`. Decoding happens after the connect. */
  function LineWriteSession(unit: int, json: string, decoded: Decoded, failing: set<nat>): seq<Event> {
    if |json| == 0 then StatusToLog(STATUS_LEVEL_ERROR, NoJsonString)
    else if 0 in failing then StatusToLog(STATUS_LEVEL_ERROR, WriteFailed(unit, json))
    else
      [Connect] +
      match decoded
      case Undecodable => StatusToLog(STATUS_LEVEL_ERROR, WriteFailed(unit, json))
      case Entries(items) => Close(unit, json, RunEntries(items, 1, failing), failing)
  }

  /** One turn of the loop over the directives. */
  lemma RunEntriesAt(items: seq<Entry>, i: nat, next: nat, failing: set<nat>)
    requires i < |items|
    ensures RunEntries(items[i..], next, failing) ==
      var r := RunEntry(items[i], next, failing);
      if r.exit != Finished then r else Then(r.events, RunEntries(items[i + 1..], r.next, failing))
  {
    assert items[i..][0] == items[i] && items[i..][1..] == items[i + 1..];
  }

  /** RunEntry of a directive that passes both checks, with the clear call
      and the text write as two stretches. */
  function AcceptedRun(line: int, position: int, clear: int, text: string, next: nat, failing: set<nat>): Run {
    var c := Issue(ClearCalls(line, clear), next, failing);
    if c.exit != Finished then c
    else
      var w := Issue([WriteLine(line, position, text)], c.next, failing);
      if w.exit != Finished then Then(c.events, w)
      else Run(c.events + [WriteLine(line, position, text), LogOk(LineWritten(line, position, text))], Finished, w.next)
  }

  lemma RunAccepted(line: int, position: int, clear: int, text: string, next: nat, failing: set<nat>)
    requires LineInRange(line) && PositionInRange(position)
    ensures RunEntry(Directive(line, position, clear, text), next, failing)
         == AcceptedRun(line, position, clear, text, next, failing)
  {
    IssueAppend(ClearCalls(line, clear), [WriteLine(line, position, text)], next, failing);
  }

  /** The body of the loop in `write_lines` for one decoded directive: the
      two bounds checks (each logging an error and ending the session), the
      clear, the text write and the OK status line. A device call that
      raises ends the directive with `Raised`. */
  method WriteDirective(e: Entry, next: nat, failing: set<nat>) returns (events: seq<Event>, exit: Exit, after: nat)
    requires e.Directive?
    ensures Run(events, exit, after) == RunEntry(e, next, failing)
  {
    var line, position, clear, text := e.line, e.position, e.clear, e.text;
    events, exit, after := [], Finished, next;
    if line < 0 || line > 3 {
      events := StatusToLog(STATUS_LEVEL_ERROR, WrongLine(line));
      exit := Aborted;
      return;
    }
    if position < 0 || position > 19 {
      events := StatusToLog(STATUS_LEVEL_ERROR, WrongPosition(position));
      exit := Aborted;
      return;
    }
    RunAccepted(line, position, clear, text, next, failing);
    if clear == 1 {
      if after in failing {
        exit, after := Raised, after + 1;
        return;
      }
      events := events + [WriteLine(line, 0, EMPTY_LINE)];
      after := after + 1;
    }
    if clear == 2 {
      if after in failing {
        exit, after := Raised, after + 1;
        return;
      }
      events := events + [ClearDisplay];
      after := after + 1;
    }
    assert Issue(ClearCalls(line, clear), next, failing) == Run(events, Finished, after);
    if after in failing {
      exit, after := Raised, after + 1;
      return;
    }
    assert Issue([WriteLine(line, position, text)], after, failing)
        == Run([WriteLine(line, position, text)], Finished, after + 1);
    events := events + [WriteLine(line, position, text)];
    after := after + 1;
    events := events + StatusToLog(STATUS_LEVEL_OK, LineWritten(line, position, text));
  }

  /** The loop of `write_lines` over the decoded array, in array order. It
      stops at the first directive that does not finish: one out of range
      (an error line has been logged and `write_lines` returns) or one on
      which something raised. */
  method WriteEntries(items: seq<Entry>, first: nat, failing: set<nat>) returns (events: seq<Event>, exit: Exit, after: nat)
    ensures Run(events, exit, after) == RunEntries(items, first, failing)
  {
    events, exit, after := [], Finished, first;
    var i := 0;
    assert items[i..] == items;
    while i < |items|
      invariant 0 <= i <= |items|
      invariant RunEntries(items, first, failing) == Then(events, RunEntries(items[i..], after, failing))
    {
      RunEntriesAt(items, i, after, failing);
      if items[i].Malformed? {
        exit := Raised;
        return;
      }
      var directiveEvents, directiveExit, directiveAfter := WriteDirective(items[i], after, failing);
      events := events + directiveEvents;
      if directiveExit != Finished {
        exit, after := directiveExit, directiveAfter;
        return;
      }
      after := directiveAfter;
      i := i + 1;
    }
    assert items[i..] == [];
  }

  /** The plugin's `write_lines`: the session, step by step. */
  method WriteLines(unit: int, json: string, decoded: Decoded, failing: set<nat>) returns (trace: seq<Event>)
    ensures trace == LineWriteSession(unit, json, decoded, failing)
    ensures |json| == 0 ==> trace == [LogError(NoJsonString)]
    ensures |json| > 0 && 0 !in failing && decoded.Undecodable? ==>
      trace == [Connect, LogError(WriteFailed(unit, json))]
  {
    if |json| == 0 {
      trace := StatusToLog(STATUS_LEVEL_ERROR, NoJsonString);
      return;
    }
    var failed := StatusToLog(STATUS_LEVEL_ERROR, WriteFailed(unit, json));
    var next: nat := 0;
    if next in failing {
      trace := failed;
      return;
    }
    trace := [Connect];
    next := next + 1;
    if decoded.Undecodable? {
      trace := trace + failed;
      return;
    }
    var events, exit;
    events, exit, next := WriteEntries(decoded.items, next, failing);
    trace := trace + events;
    if exit == Aborted {
      return;
    }
    if exit == Raised {
      trace := trace + failed;
      return;
    }
    if next in failing {
      trace := trace + failed;
      return;
    }
    trace := trace + [Disconnect];
  }

  // ---------------------------------------------------------------------
  // Properties of the line-write session
  // ---------------------------------------------------------------------

  /** What a directive leaves in the trace when nothing goes wrong: its
      device calls, then its OK status line. */
  function DirectiveEvents(e: Entry): seq<Event>
    requires e.Directive?
  {
    DirectiveCalls(e.line, e.position, e.clear, e.text) + [LogOk(LineWritten(e.line, e.position, e.text))]
  }

  /** The events that only a directive emits: writes, clears and OK lines. */
  predicate Quiet(s: seq<Event>) {
    forall e | e in s :: e.WriteLine? || e.ClearDisplay? || e.LogOk?
  }

  /** The events of the directives `items`, one after the other, in array order. */
  function Written(items: seq<Entry>): seq<Event>
    decreases |items|
  {
    if items == [] then []
    else (if items[0].Directive? then DirectiveEvents(items[0]) else []) + Written(items[1..])
  }

  /** Directives write, clear and report, and nothing else. */
  lemma {:induction false} WrittenQuiet(items: seq<Entry>)
    decreases |items|
    ensures Quiet(Written(items))
  {
    if items != [] {
      WrittenQuiet(items[1..]);
    }
  }

  /** The number of device calls the directives `items` make. */
  function CallCount(items: seq<Entry>): nat
    decreases |items|
  {
    if items == [] then 0
    else (if items[0].Directive? then |DirectiveCalls(items[0].line, items[0].position, items[0].clear, items[0].text)| else 0)
         + CallCount(items[1..])
  }

  /** The clear rules: mode 1 first blanks the line with a full-width line of
      spaces at column 0, mode 2 first clears the whole display, any other
      mode clears nothing; then the text is written at its line and position
      and one OK line reports it. */
  lemma ClearRules(line: int, position: int, clear: int, text: string)
    ensures var ev := DirectiveEvents(Directive(line, position, clear, text));
      var write := [WriteLine(line, position, text), LogOk(LineWritten(line, position, text))];
      && (clear == 1 ==> ev == [WriteLine(line, 0, EMPTY_LINE)] + write)
      && (clear == 2 ==> ev == [ClearDisplay] + write)
      && (clear != 1 && clear != 2 ==> ev == write)
    ensures |EMPTY_LINE| == COLUMNS && forall k | 0 <= k < |EMPTY_LINE| :: EMPTY_LINE[k] == ' '
  {
  }

  /** An accepted directive on a bricklet that accepts every call. */
  lemma RunEntryClean(e: Entry, next: nat)
    requires Accepted(e)
    ensures RunEntry(e, next, {}) ==
      Run(DirectiveEvents(e), Finished, next + |DirectiveCalls(e.line, e.position, e.clear, e.text)|)
  {
    RunAccepted(e.line, e.position, e.clear, e.text, next, {});
    IssueOutcome(ClearCalls(e.line, e.clear), next, {});
    var c := Issue(ClearCalls(e.line, e.clear), next, {});
    IssueOutcome([WriteLine(e.line, e.position, e.text)], c.next, {});
  }

  /** On a bricklet that accepts every call, the directives `a`, all
      accepted, run to completion one after the other, and the loop carries
      on with `b`. */
  lemma {:induction false} RunEntriesAppend(a: seq<Entry>, b: seq<Entry>, next: nat)
    requires forall j | 0 <= j < |a| :: Accepted(a[j])
    decreases |a|
    ensures RunEntries(a + b, next, {}) ==
      Then(Written(a), RunEntries(b, next + CallCount(a), {}))
  {
    if a == [] {
      assert a + b == b;
      var r := RunEntries(b, next, {});
      assert [] + r.events == r.events;
    } else {
      var e, tail := a[0], a[1..];
      var n := next + |DirectiveCalls(e.line, e.position, e.clear, e.text)|;
      var rest := RunEntries(b, n + CallCount(tail), {});
      assert a + b == [e] + (tail + b);
      RunEntriesCons(e, tail + b, next);
      assert RunEntries(tail + b, n, {}) == Then(Written(tail), rest) by {
        RunEntriesAppend(tail, b, n);
      }
      ThenThen(DirectiveEvents(e), Written(tail), rest);
    }
  }

  /** One accepted directive in front of the loop's input. */
  lemma RunEntriesCons(e: Entry, rest: seq<Entry>, next: nat)
    requires Accepted(e)
    ensures RunEntries([e] + rest, next, {}) ==
      Then(DirectiveEvents(e), RunEntries(rest, next + |DirectiveCalls(e.line, e.position, e.clear, e.text)|, {}))
  {
    assert ([e] + rest)[0] == e && ([e] + rest)[1..] == rest;
    RunEntryClean(e, next);
  }

  /** A batch whose directives all pass both checks, on a bricklet that
      accepts every call: connect, each directive's events in array order,
      and one disconnect, which is the last event. */
  lemma CleanBatch(unit: int, json: string, items: seq<Entry>)
    requires |json| > 0
    requires forall j | 0 <= j < |items| :: Accepted(items[j])
    ensures var t := LineWriteSession(unit, json, Entries(items), {});
      && t == [Connect] + Written(items) + [Disconnect]
      && Disconnect !in t[..|t| - 1]
  {
    AllAccepted(items, 1);
    var t := LineWriteSession(unit, json, Entries(items), {});
    assert t == [Connect] + Written(items) + [Disconnect];
    assert t[..|t| - 1] == [Connect] + Written(items);
    WrittenQuiet(items);
    QuietHasNoDisconnect(Written(items));
  }

  /** A loop over accepted directives only, on a bricklet that accepts every
      call, runs to its end. */
  lemma AllAccepted(items: seq<Entry>, next: nat)
    requires forall j | 0 <= j < |items| :: Accepted(items[j])
    ensures RunEntries(items, next, {}) == Run(Written(items), Finished, next + CallCount(items))
  {
    RunEntriesAppend(items, [], next);
    assert items + [] == items;
    assert RunEntries([], next + CallCount(items), {}) == Run([], Finished, next + CallCount(items));
    assert Written(items) + [] == Written(items);
  }

  lemma QuietHasNoDisconnect(s: seq<Event>)
    requires Quiet(s)
    ensures Disconnect !in s
  {
  }

  /** The first directive out of range ends the batch: the directives
      before it stay written, one error line names the line number (checked
      first) or else the position, and nothing follows: no later directive
      and no disconnect. */
  lemma AbortAtOutOfRange(unit: int, json: string, items: seq<Entry>, k: nat)
    requires |json| > 0 && k < |items|
    requires forall j | 0 <= j < k :: Accepted(items[j])
    requires items[k].Directive? && !Accepted(items[k])
    ensures LineWriteSession(unit, json, Entries(items), {}) ==
      [Connect] + Written(items[..k]) +
      [LogError(if !LineInRange(items[k].line) then WrongLine(items[k].line) else WrongPosition(items[k].position))]
  {
    var e := items[k];
    var error := LogError(if !LineInRange(e.line) then WrongLine(e.line) else WrongPosition(e.position));
    var n := 1 + CallCount(items[..k]);
    var w := Written(items[..k]);
    assert RunEntry(e, n, {}) == Run([error], Aborted, n);
    StopAt(items, k, 1);
    var r := RunEntries(items, 1, {});
    assert r.events == w + [error] && r.exit == Aborted;
    ConnectedSession(unit, json, items, {});
    Between(w, error);
  }

  /** A directive whose keys cannot be read raises: the directives before it
      stay written, one error line reports the failed write, and there is no
      disconnect. */
  lemma MalformedAt(unit: int, json: string, items: seq<Entry>, k: nat)
    requires |json| > 0 && k < |items|
    requires forall j | 0 <= j < k :: Accepted(items[j])
    requires items[k].Malformed?
    ensures LineWriteSession(unit, json, Entries(items), {}) ==
      [Connect] + Written(items[..k]) + [LogError(WriteFailed(unit, json))]
  {
    var n := 1 + CallCount(items[..k]);
    var w := Written(items[..k]);
    assert RunEntry(items[k], n, {}) == Run([], Raised, n);
    StopAt(items, k, 1);
    var r := RunEntries(items, 1, {});
    assert r.events == w + [];
    assert w + [] == w;
    assert r.exit == Raised;
    ConnectedSession(unit, json, items, {});
    Between(w, LogError(WriteFailed(unit, json)));
  }

  /** The loop over `items` whose first `k` directives are accepted and whose
      `k`-th entry does not finish, on a bricklet that accepts every call. */
  lemma StopAt(items: seq<Entry>, k: nat, next: nat)
    requires k < |items|
    requires forall j | 0 <= j < k :: Accepted(items[j])
    requires RunEntry(items[k], next + CallCount(items[..k]), {}).exit != Finished
    ensures RunEntries(items, next, {}) ==
      Then(Written(items[..k]), RunEntry(items[k], next + CallCount(items[..k]), {}))
  {
    var before, e, after := items[..k], items[k], items[k + 1..];
    assert items == before + [e] + after;
    forall j | 0 <= j < |before| ensures Accepted(before[j]) {
      assert before[j] == items[j];
    }
    StopAfter(before, e, after, next);
  }

  /** The same, with the loop's input split around that entry. */
  lemma StopAfter(before: seq<Entry>, e: Entry, after: seq<Entry>, next: nat)
    requires forall j | 0 <= j < |before| :: Accepted(before[j])
    requires RunEntry(e, next + CallCount(before), {}).exit != Finished
    ensures RunEntries(before + [e] + after, next, {}) ==
      Then(Written(before), RunEntry(e, next + CallCount(before), {}))
  {
    assert before + [e] + after == before + ([e] + after);
    RunEntriesAppend(before, [e] + after, next);
    assert ([e] + after)[0] == e && ([e] + after)[1..] == after;
  }

  /** The connect, a stretch of the loop and one closing event, regrouped. */
  lemma Between(w: seq<Event>, last: Event)
    ensures [Connect] + (w + [last]) == [Connect] + w + [last]
  {
  }

  /** A session whose connect succeeds and whose text decodes. */
  lemma ConnectedSession(unit: int, json: string, items: seq<Entry>, failing: set<nat>)
    requires |json| > 0 && 0 !in failing
    ensures LineWriteSession(unit, json, Entries(items), failing) ==
      [Connect] + Close(unit, json, RunEntries(items, 1, failing), failing)
  {
  }

  /** A device call that raises inside one directive cuts that directive's
      events short; otherwise the directive runs as on a bricklet that
      accepts every call. */
  lemma RunEntryFaults(e: Entry, next: nat, failing: set<nat>)
    ensures var r := RunEntry(e, next, failing);
      var r0 := RunEntry(e, next, {});
      r == r0 || (r.exit == Raised && r.events <= r0.events)
  {
    if Accepted(e) {
      var calls := ClearCalls(e.line, e.clear);
      var write := [WriteLine(e.line, e.position, e.text)];
      RunAccepted(e.line, e.position, e.clear, e.text, next, failing);
      RunEntryClean(e, next);
      IssueOutcome(calls, next, failing);
      var c := Issue(calls, next, failing);
      if c.exit == Finished {
        IssueOutcome(write, c.next, failing);
        var w := Issue(write, c.next, failing);
        if w.exit != Finished {
          assert w.events == [];
        }
      }
    }
  }

  lemma {:induction false} RunEntriesFaults(items: seq<Entry>, next: nat, failing: set<nat>)
    decreases |items|
    ensures var r := RunEntries(items, next, failing);
      var r0 := RunEntries(items, next, {});
      r == r0 || (r.exit == Raised && r.events <= r0.events)
  {
    if items != [] {
      var r1 := RunEntry(items[0], next, failing);
      var r10 := RunEntry(items[0], next, {});
      RunEntryFaults(items[0], next, failing);
      if r1 == r10 {
        if r1.exit == Finished {
          RunEntriesFaults(items[1..], r1.next, failing);
        }
      } else {
        var r0 := RunEntries(items, next, {});
        assert r10.events <= r0.events;
      }
    }
  }

  /** Device faults only cut the session short: whatever the bricklet
      refuses, the trace up to its last event is a prefix of the trace on a
      bricklet that accepts every call, and where the two differ the trace
      ends with the one write-failure error line. */
  lemma FaultsOnlyTruncate(unit: int, json: string, decoded: Decoded, failing: set<nat>)
    requires |json| > 0
    ensures var t := LineWriteSession(unit, json, decoded, failing);
      var t0 := LineWriteSession(unit, json, decoded, {});
      && |t| >= 1
      && t[..|t| - 1] <= t0
      && (t == t0 || t[|t| - 1] == LogError(WriteFailed(unit, json)))
  {
    var t := LineWriteSession(unit, json, decoded, failing);
    var t0 := LineWriteSession(unit, json, decoded, {});
    if 0 !in failing && decoded.Entries? {
      var r := RunEntries(decoded.items, 1, failing);
      var r0 := RunEntries(decoded.items, 1, {});
      RunEntriesFaults(decoded.items, 1, failing);
      if r == r0 && r.exit == Aborted {
        assert t == t0;
      } else if r == r0 {
        assert t[..|t| - 1] == [Connect] + r.events;
      } else {
        assert t[..|t| - 1] == [Connect] + r.events;
        assert [Connect] + r.events <= [Connect] + r0.events;
      }
    }
  }

  /** The events a stretch of the loop leaves: directive events only,
      except that a stretch that returned early ends with its one error
      line. */
  predicate LoopShape(r: Run) {
    && (r.exit != Aborted ==> Quiet(r.events))
    && (r.exit == Aborted ==>
          |r.events| >= 1 && Quiet(r.events[..|r.events| - 1]) && r.events[|r.events| - 1].LogError?)
  }

  lemma RunEntryShape(e: Entry, next: nat, failing: set<nat>)
    ensures LoopShape(RunEntry(e, next, failing))
  {
    var r := RunEntry(e, next, failing);
    if Accepted(e) {
      RunAccepted(e.line, e.position, e.clear, e.text, next, failing);
      var c := Issue(ClearCalls(e.line, e.clear), next, failing);
      IssueOutcome(ClearCalls(e.line, e.clear), next, failing);
      IssueOutcome([WriteLine(e.line, e.position, e.text)], c.next, failing);
    } else if e.Directive? {
      assert r.events[..|r.events| - 1] == [];
    }
  }

  /** Directive events in front of a stretch keep its shape. */
  lemma QuietThen(a: seq<Event>, r: Run)
    requires Quiet(a) && LoopShape(r)
    ensures LoopShape(Then(a, r))
  {
    if r.exit == Aborted {
      assert (a + r.events)[..|a + r.events| - 1] == a + r.events[..|r.events| - 1];
    }
  }

  /** The events of the whole loop have that shape. */
  lemma {:induction false} RunEntriesEvents(items: seq<Entry>, next: nat, failing: set<nat>)
    decreases |items|
    ensures LoopShape(RunEntries(items, next, failing))
  {
    if items != [] {
      var r1 := RunEntry(items[0], next, failing);
      RunEntryShape(items[0], next, failing);
      if r1.exit == Finished {
        RunEntriesEvents(items[1..], r1.next, failing);
        QuietThen(r1.events, RunEntries(items[1..], r1.next, failing));
      }
    }
  }

  /** The shape every session has: its last event is the disconnect or an
      error line, and no disconnect and no error line comes before it. */
  predicate EndsOnce(t: seq<Event>) {
    && |t| >= 1
    && (t[|t| - 1] == Disconnect || t[|t| - 1].LogError?)
    && (forall k | 0 <= k < |t| - 1 :: t[k] != Disconnect && !t[k].LogError?)
  }

  /** The connect followed by the close of a loop of that shape ends once. */
  lemma ConnectedEndsOnce(unit: int, json: string, r: Run, failing: set<nat>)
    requires LoopShape(r)
    ensures EndsOnce([Connect] + Close(unit, json, r, failing))
  {
    var t := [Connect] + Close(unit, json, r, failing);
    if r.exit == Aborted {
      assert t == [Connect] + r.events;
      forall k | 0 <= k < |t| - 1 ensures t[k] != Disconnect && !t[k].LogError? {
        if k > 0 {
          var quiet := r.events[..|r.events| - 1];
          assert t[k] == quiet[k - 1];
          assert t[k] in quiet;
        }
      }
    } else {
      assert |t| == |r.events| + 2;
      forall k | 0 <= k < |t| - 1 ensures t[k] != Disconnect && !t[k].LogError? {
        if k > 0 {
          assert t[k] == r.events[k - 1];
          assert t[k] in r.events;
        }
      }
    }
  }

  /** Every session ends exactly once. When the device text is not empty and
      the connect succeeds, the connect is the first event. */
  lemma SessionEndsOnce(unit: int, json: string, decoded: Decoded, failing: set<nat>)
    ensures var t := LineWriteSession(unit, json, decoded, failing);
      && EndsOnce(t)
      && (|json| > 0 && 0 !in failing ==> t[0] == Connect)
  {
    if |json| > 0 && 0 !in failing && decoded.Entries? {
      RunEntriesEvents(decoded.items, 1, failing);
      ConnectedEndsOnce(unit, json, RunEntries(decoded.items, 1, failing), failing);
    }
  }

  /** The first worked example: one directive that clears line 1 and writes
      "HELLO" at its start. */
  lemma ExampleHello(unit: int, json: string)
    requires |json| > 0
    ensures LineWriteSession(unit, json, Entries([Directive(1, 0, 1, "HELLO")]), {}) ==
      [Connect, WriteLine(1, 0, EMPTY_LINE), WriteLine(1, 0, "HELLO"), LogOk(LineWritten(1, 0, "HELLO")), Disconnect]
  {
  }

  /** The second worked example: line 4 does not exist, so the only events
      after the connect are one error line naming it. */
  lemma ExampleLineFour(unit: int, json: string)
    requires |json| > 0
    ensures LineWriteSession(unit, json, Entries([Directive(4, 0, 0, "X")]), {}) ==
      [Connect, LogError(WrongLine(4))]
  {
  }
}
