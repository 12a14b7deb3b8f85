/** The configuration session, run once when the plugin starts: connect to
    the bricklet, switch the backlight, set the cursor mode, program the
    custom characters read from the custom character file, disconnect. */
module Configuration {
  import opened Events
  import Text

  /** One element of the custom character array, as the loop body reads it:
      a `CharDef` carries the "id" value after `int()`, the "name" value,
      and the "char" value after stripping and splitting (see `Pattern`);
      `MalformedChar` stands for an element on which reading one of them
      raises (a missing key, an id `int()` refuses, a "char" that is not a
      string). */
  datatype CharEntry =
    | CharDef(id: int, name: string, pattern: seq<string>)
    | MalformedChar

  /** The custom character file: it cannot be opened or decoded, or it
      decodes to an array of entries. */
  datatype CharFile = Unreadable | Chars(entries: seq<CharEntry>)

  /** The bricklet has eight custom character slots, 0 to 7. */
  predicate SlotInRange(id: int) {
    0 <= id <= 7
  }

  /** What is handed to the bricklet for a "char" value `glyph`: the value
      with its outer white space stripped, split at every comma. The pieces
      stay strings. */
  function Pattern(glyph: string): seq<string> {
    Text.Split(Text.Strip(glyph), ',')
  }

  /** The entry read from an element whose keys hold `id` (after `int()`),
      `name` and the string `glyph`. */
  function ReadEntry(id: int, name: string, glyph: string): CharEntry {
    CharDef(id, name, Pattern(glyph))
  }

  /** The pattern handed to the bricklet loses nothing of the "char" value
      but its outer white space: its pieces hold no comma and, joined with
      commas, give back the stripped value, which is the value less the
      white space at both ends. */
  lemma ReadEntryPattern(id: int, name: string, glyph: string)
    ensures var c := ReadEntry(id, name, glyph);
      && c.CharDef? && c.id == id && c.name == name
      && |c.pattern| >= 1
      && (forall piece | piece in c.pattern :: ',' !in piece)
      && Text.Join(c.pattern, ',') == Text.Strip(glyph)
      && exists i :: Text.StrippedAt(glyph, Text.Join(c.pattern, ','), i)
  {
    Text.JoinSplit(Text.Strip(glyph), ',');
    Text.StripRemovesOuterSpace(glyph);
  }

  /** The events the setup makes before the custom characters are loaded. */
  function Setup(backlight: bool, cursor: bool, blinking: bool): seq<Event> {
    [Connect, Backlight(backlight), SetConfig(cursor, blinking)]
  }

  /** One entry of the custom character loop, its device call (if any) being
      the `next`-th of the session. */
  function RunChar(c: CharEntry, next: nat, failing: set<nat>): Run {
    match c
    case MalformedChar => Run([], Raised, next)
    case CharDef(id, _, pattern) =>
      if SlotInRange(id) then Issue([SetCustomCharacter(id, pattern)], next, failing)
      else Run(StatusToLog(STATUS_LEVEL_ERROR, CharIndexOutOfRange(id)), Finished, next)
  }

  /** The loop over the entries, in array order, up to the first one that raises. */
  function RunChars(cs: seq<CharEntry>, next: nat, failing: set<nat>): Run
    decreases |cs|
  {
    if cs == [] then Run([], Finished, next)
    else
      var r := RunChar(cs[0], next, failing);
      if r.exit != Finished then r
      else Then(r.events, RunChars(cs[1..], r.next, failing))
  }

  /** The inner block that reads the file and programs the characters. */
  function LoadCharacters(file: CharFile, next: nat, failing: set<nat>): Run {
    match file
    case Unreadable => Run([], Raised, next)
    case Chars(cs) =>
      if |cs| > 0 then RunChars(cs, next, failing)
      else Run(StatusToLog(STATUS_LEVEL_ERROR, NoCustomChars), Finished, next)
  }

  /** What follows a setup that went through: the loading block, whose own
      failure is reported as a failed character file, then the disconnect,
      whose failure is reported as a failed configuration. `next` is the
      position of the first device call after the setup. */
  function AfterSetup(file: CharFile, next: nat, failing: set<nat>): seq<Event> {
    var load := LoadCharacters(file, next, failing);
    load.events
    + (if load.exit == Raised then StatusToLog(STATUS_LEVEL_ERROR, CustomCharFileFailed) else [])
    + (if load.next in failing then StatusToLog(STATUS_LEVEL_ERROR, SetConfigFailed) else [Disconnect])
  }

  /** The whole configuration session. A failure in the setup is reported as
      a failed configuration and ends the session there. */
  function ConfigurationSession(backlight: bool, cursor: bool, blinking: bool, file: CharFile, failing: set<nat>)
    : seq<Event>
  {
    var setup := Issue(Setup(backlight, cursor, blinking), 0, failing);
    setup.events
    + if setup.exit != Finished then StatusToLog(STATUS_LEVEL_ERROR, SetConfigFailed)
      else AfterSetup(file, setup.next, failing)
  }

  /** The setup calls one by one: each of them may raise. */
  lemma IssueSetup(backlight: bool, cursor: bool, blinking: bool, failing: set<nat>)
    ensures Issue(Setup(backlight, cursor, blinking), 0, failing) ==
      if 0 in failing then Run([], Raised, 1)
      else if 1 in failing then Run([Connect], Raised, 2)
      else if 2 in failing then Run([Connect, Backlight(backlight)], Raised, 3)
      else Run(Setup(backlight, cursor, blinking), Finished, 3)
  {
    var calls := Setup(backlight, cursor, blinking);
    var rest1, rest2 := [Backlight(backlight), SetConfig(cursor, blinking)], [SetConfig(cursor, blinking)];
    assert calls[1..] == rest1 && rest1[1..] == rest2 && rest2[1..] == [];
    var r3 := Issue(rest2, 2, failing);
    assert Issue([], 3, failing) == Run([], Finished, 3);
    assert rest2 == [rest2[0]] + [];
    assert r3 == if 2 in failing then Run([], Raised, 3) else Run(rest2, Finished, 3);
    var r2 := Issue(rest1, 1, failing);
    assert r2 == if 1 in failing then Run([], Raised, 2) else Then([Backlight(backlight)], r3);
  }

  /** One entry of the custom character loop. */
  method ProgramCharacter(c: CharEntry, next: nat, failing: set<nat>) returns (events: seq<Event>, exit: Exit, after: nat)
    requires c.CharDef?
    ensures Run(events, exit, after) == RunChar(c, next, failing)
  {
    var id, pattern := c.id, c.pattern;
    events, exit, after := [], Finished, next;
    if 0 <= id && id <= 7 {
      if after in failing {
        exit, after := Raised, after + 1;
        return;
      }
      events := events + [SetCustomCharacter(id, pattern)];
      after := after + 1;
      assert [SetCustomCharacter(id, pattern)][1..] == [];
      assert Issue([], after, failing) == Run([], Finished, after);
    } else {
      events := events + StatusToLog(STATUS_LEVEL_ERROR, CharIndexOutOfRange(id));
    }
  }

  lemma RunCharsAt(cs: seq<CharEntry>, i: nat, next: nat, failing: set<nat>)
    requires i < |cs|
    ensures RunChars(cs[i..], next, failing) ==
      var r := RunChar(cs[i], next, failing);
      if r.exit != Finished then r else Then(r.events, RunChars(cs[i + 1..], r.next, failing))
  {
    assert cs[i..][0] == cs[i] && cs[i..][1..] == cs[i + 1..];
  }

  /** The custom character loop of `set_configuration`: a slot in range is
      programmed, any other id is reported and skipped, and the loop goes on
      until the end or until something raises. */
  method ProgramCharacters(cs: seq<CharEntry>, first: nat, failing: set<nat>)
    returns (events: seq<Event>, exit: Exit, after: nat)
    ensures Run(events, exit, after) == RunChars(cs, first, failing)
  {
    events, exit, after := [], Finished, first;
    var i := 0;
    assert cs[i..] == cs;
    while i < |cs|
      invariant 0 <= i <= |cs|
      invariant exit == Finished
      invariant RunChars(cs, first, failing) == Then(events, RunChars(cs[i..], after, failing))
    {
      RunCharsAt(cs, i, after, failing);
      if cs[i].MalformedChar? {
        exit := Raised;
        return;
      }
      var charEvents, charExit, charAfter := ProgramCharacter(cs[i], after, failing);
      events := events + charEvents;
      if charExit != Finished {
        exit, after := charExit, charAfter;
        return;
      }
      after := charAfter;
      i := i + 1;
    }
    assert cs[i..] == [];
  }

  /** A setup call that raises ends the session with one failed-configuration
      line after the events of the calls before it. */
  lemma SetupFails(backlight: bool, cursor: bool, blinking: bool, file: CharFile, failing: set<nat>)
    ensures var t := ConfigurationSession(backlight, cursor, blinking, file, failing);
      && (0 in failing ==> t == [LogError(SetConfigFailed)])
      && (0 !in failing && 1 in failing ==> t == [Connect, LogError(SetConfigFailed)])
      && (0 !in failing && 1 !in failing && 2 in failing ==>
            t == [Connect, Backlight(backlight), LogError(SetConfigFailed)])
  {
    IssueSetup(backlight, cursor, blinking, failing);
  }

  /** A setup that goes through is followed by the loading block and the
      disconnect, starting with the fourth device call. */
  lemma SetupSucceeds(backlight: bool, cursor: bool, blinking: bool, file: CharFile, failing: set<nat>)
    requires 0 !in failing && 1 !in failing && 2 !in failing
    ensures ConfigurationSession(backlight, cursor, blinking, file, failing) ==
      Setup(backlight, cursor, blinking) + AfterSetup(file, 3, failing)
  {
    IssueSetup(backlight, cursor, blinking, failing);
  }

  /** The inner block of `set_configuration` that reads the custom
      character file and programs its entries. */
  method LoadFile(file: CharFile, first: nat, failing: set<nat>) returns (events: seq<Event>, exit: Exit, after: nat)
    ensures Run(events, exit, after) == LoadCharacters(file, first, failing)
  {
    match file
    case Unreadable =>
      events, exit, after := [], Raised, first;
    case Chars(cs) =>
      if |cs| > 0 {
        events, exit, after := ProgramCharacters(cs, first, failing);
      } else {
        events, exit, after := StatusToLog(STATUS_LEVEL_ERROR, NoCustomChars), Finished, first;
      }
  }

  /** The start of `set_configuration`: connect, switch the backlight on or
      off, set the cursor mode. Any of the three calls may raise. */
  method SetUp(backlight: bool, cursor: bool, blinking: bool, failing: set<nat>)
    returns (events: seq<Event>, exit: Exit, after: nat)
    ensures Run(events, exit, after) == Issue(Setup(backlight, cursor, blinking), 0, failing)
  {
    IssueSetup(backlight, cursor, blinking, failing);
    events, exit, after := [], Raised, 0;
    if after in failing {
      after := after + 1;
      return;
    }
    events := events + [Connect];
    after := after + 1;
    if after in failing {
      after := after + 1;
      return;
    }
    if backlight {
      events := events + [Backlight(true)];
    } else {
      events := events + [Backlight(false)];
    }
    after := after + 1;
    if after in failing {
      after := after + 1;
      return;
    }
    events := events + [SetConfig(cursor, blinking)];
    exit, after := Finished, after + 1;
  }

  /** The rest of `set_configuration` once the setup went through: the
      loading block, whose failure is caught and reported, then the
      disconnect. */
  method LoadAndDisconnect(file: CharFile, next: nat, failing: set<nat>) returns (events: seq<Event>)
    ensures events == AfterSetup(file, next, failing)
  {
    var exit, after;
    events, exit, after := LoadFile(file, next, failing);
    if exit == Raised {
      events := events + StatusToLog(STATUS_LEVEL_ERROR, CustomCharFileFailed);
    }
    if after in failing {
      events := events + StatusToLog(STATUS_LEVEL_ERROR, SetConfigFailed);
      return;
    }
    events := events + [Disconnect];
  }

  /** The plugin's `set_configuration`: a failure of the setup or of the
      disconnect is reported as a failed configuration. */
  method SetConfiguration(backlight: bool, cursor: bool, blinking: bool, file: CharFile, failing: set<nat>)
    returns (trace: seq<Event>)
    ensures trace == ConfigurationSession(backlight, cursor, blinking, file, failing)
  {
    var exit, next;
    trace, exit, next := SetUp(backlight, cursor, blinking, failing);
    if exit != Finished {
      trace := trace + StatusToLog(STATUS_LEVEL_ERROR, SetConfigFailed);
      return;
    }
    var rest := LoadAndDisconnect(file, next, failing);
    trace := trace + rest;
  }

  // Properties of the configuration session.

  /** Every entry of `cs` could be read. */
  predicate WellFormed(cs: seq<CharEntry>) {
    forall j | 0 <= j < |cs| :: cs[j].CharDef?
  }

  /** What one readable entry leaves behind on a bricklet that accepts the
      call: its slot programmed with its pattern, or one error line naming an
      id out of range. */
  function CharEvent(c: CharEntry): Event
    requires c.CharDef?
  {
    if SlotInRange(c.id) then SetCustomCharacter(c.id, c.pattern)
    else LogError(CharIndexOutOfRange(c.id))
  }

  /** The events of the readable entries among `cs`, one per entry, in
      array order. */
  function CharEvents(cs: seq<CharEntry>): seq<Event>
    decreases |cs|
  {
    if cs == [] then []
    else (if cs[0].CharDef? then [CharEvent(cs[0])] else []) + CharEvents(cs[1..])
  }

  /** The number of device calls the entries `cs` make: one per slot in range. */
  function SlotCount(cs: seq<CharEntry>): nat
    decreases |cs|
  {
    if cs == [] then 0
    else (if cs[0].CharDef? && SlotInRange(cs[0].id) then 1 else 0) + SlotCount(cs[1..])
  }

  /** One readable entry whose call (if it makes one) goes through. */
  lemma RunCharAccepted(c: CharEntry, next: nat, failing: set<nat>)
    requires c.CharDef?
    requires SlotInRange(c.id) ==> next !in failing
    ensures RunChar(c, next, failing) ==
      Run([CharEvent(c)], Finished, next + if SlotInRange(c.id) then 1 else 0)
  {
    if SlotInRange(c.id) {
      var call := [SetCustomCharacter(c.id, c.pattern)];
      assert call[1..] == [];
      assert Issue(call[1..], next + 1, failing) == Run([], Finished, next + 1);
    }
  }

  /** The readable entries `a`, none of whose calls fails, run one after the
      other, each leaving its one event, and the loop carries on with `b`. */
  lemma {:induction false} RunCharsAppend(a: seq<CharEntry>, b: seq<CharEntry>, next: nat, failing: set<nat>)
    requires WellFormed(a)
    requires forall q | next <= q < next + SlotCount(a) :: q !in failing
    decreases |a|
    ensures RunChars(a + b, next, failing) ==
      Then(CharEvents(a), RunChars(b, next + SlotCount(a), failing))
  {
    if a == [] {
      assert a + b == b;
      var r := RunChars(b, next, failing);
      assert [] + r.events == r.events;
    } else {
      var c := a[0];
      var n := next + if SlotInRange(c.id) then 1 else 0;
      var rest := RunChars(b, n + SlotCount(a[1..]), failing);
      assert (a + b)[0] == c && (a + b)[1..] == a[1..] + b;
      assert RunChars(a + b, next, failing) == Then([CharEvent(c)], RunChars(a[1..] + b, n, failing)) by {
        RunCharAccepted(c, next, failing);
      }
      assert RunChars(a[1..] + b, n, failing) == Then(CharEvents(a[1..]), rest) by {
        RunCharsAppend(a[1..], b, n, failing);
      }
      ThenThen([CharEvent(c)], CharEvents(a[1..]), rest);
    }
  }

  /** The same, for the first `k` entries of `cs`. */
  lemma RunCharsPrefix(cs: seq<CharEntry>, k: nat, next: nat, failing: set<nat>)
    requires k <= |cs| && WellFormed(cs[..k])
    requires forall q | next <= q < next + SlotCount(cs[..k]) :: q !in failing
    ensures RunChars(cs, next, failing) ==
      Then(CharEvents(cs[..k]), RunChars(cs[k..], next + SlotCount(cs[..k]), failing))
  {
    assert cs == cs[..k] + cs[k..];
    RunCharsAppend(cs[..k], cs[k..], next, failing);
  }

  /** A non-empty file of readable entries, on a bricklet that accepts every
      call: the setup, then each entry's event in array order (its slot
      programmed, or an error line for an id outside 0-7, after which the
      loop goes on), then the disconnect. */
  lemma CleanConfiguration(backlight: bool, cursor: bool, blinking: bool, cs: seq<CharEntry>)
    requires |cs| > 0 && WellFormed(cs)
    ensures ConfigurationSession(backlight, cursor, blinking, Chars(cs), {}) ==
      Setup(backlight, cursor, blinking) + CharEvents(cs) + [Disconnect]
  {
    LoadClean(cs, 3);
    SetupSucceeds(backlight, cursor, blinking, Chars(cs), {});
  }

  /** The loop over readable entries on a bricklet that accepts every call. */
  lemma LoadClean(cs: seq<CharEntry>, next: nat)
    requires |cs| > 0 && WellFormed(cs)
    ensures LoadCharacters(Chars(cs), next, {}) == Run(CharEvents(cs), Finished, next + SlotCount(cs))
  {
    RunCharsAppend(cs, [], next, {});
    assert cs + [] == cs;
    var r := RunChars([], next + SlotCount(cs), {});
    assert r == Run([], Finished, next + SlotCount(cs));
    assert CharEvents(cs) + [] == CharEvents(cs);
  }

  /** An empty character array: one error line, no slot programmed, and the
      disconnect still follows. */
  lemma EmptyCharacterArray(backlight: bool, cursor: bool, blinking: bool)
    ensures ConfigurationSession(backlight, cursor, blinking, Chars([]), {}) ==
      Setup(backlight, cursor, blinking) + [LogError(NoCustomChars), Disconnect]
  {
    SetupSucceeds(backlight, cursor, blinking, Chars([]), {});
  }

  /** A loading block that raised, followed by a disconnect that goes
      through: the failure is reported once and the disconnect follows. */
  lemma AfterSetupRaised(file: CharFile, next: nat, failing: set<nat>)
    requires LoadCharacters(file, next, failing).exit == Raised
    requires LoadCharacters(file, next, failing).next !in failing
    ensures AfterSetup(file, next, failing) ==
      LoadCharacters(file, next, failing).events + [LogError(CustomCharFileFailed), Disconnect]
  {
  }

  /** A file that cannot be read or decoded: the failure is caught inside the
      session, reported, and the disconnect still follows. */
  lemma UnreadableFile(backlight: bool, cursor: bool, blinking: bool)
    ensures ConfigurationSession(backlight, cursor, blinking, Unreadable, {}) ==
      Setup(backlight, cursor, blinking) + [LogError(CustomCharFileFailed), Disconnect]
  {
    SetupSucceeds(backlight, cursor, blinking, Unreadable, {});
    AfterSetupRaised(Unreadable, 3, {});
  }

  /** An entry that cannot be read stops the loop: the entries before it keep
      their events, the failure is reported once, and the disconnect still
      follows. */
  lemma MalformedCharAt(backlight: bool, cursor: bool, blinking: bool, cs: seq<CharEntry>, k: nat)
    requires k < |cs| && WellFormed(cs[..k]) && cs[k].MalformedChar?
    ensures ConfigurationSession(backlight, cursor, blinking, Chars(cs), {}) ==
      Setup(backlight, cursor, blinking) + CharEvents(cs[..k]) + [LogError(CustomCharFileFailed), Disconnect]
  {
    assert LoadCharacters(Chars(cs), 3, {}) == Run(CharEvents(cs[..k]), Raised, 3 + SlotCount(cs[..k])) by {
      RunCharsPrefix(cs, k, 3, {});
      assert cs[k..][0] == cs[k];
    }
    AfterSetupRaised(Chars(cs), 3, {});
    SetupSucceeds(backlight, cursor, blinking, Chars(cs), {});
  }

  /** The loop reaches the `k`-th entry, whose slot call raises. */
  lemma LoadCallFails(cs: seq<CharEntry>, k: nat)
    requires k < |cs| && WellFormed(cs[..k + 1]) && SlotInRange(cs[k].id)
    ensures var p := 3 + SlotCount(cs[..k]);
      LoadCharacters(Chars(cs), 3, {p}) == Run(CharEvents(cs[..k]), Raised, p + 1)
  {
    var p := 3 + SlotCount(cs[..k]);
    assert WellFormed(cs[..k]) by {
      forall j | 0 <= j < k ensures cs[j].CharDef? {
        assert cs[j] == cs[..k + 1][j];
      }
    }
    RunCharsPrefix(cs, k, 3, {p});
    assert cs[k..][0] == cs[k] && cs[..k + 1][k] == cs[k];
    var call := [SetCustomCharacter(cs[k].id, cs[k].pattern)];
    assert Issue(call, p, {p}) == Run([], Raised, p + 1);
    assert RunChars(cs[k..], p, {p}) == Run([], Raised, p + 1);
  }

  /** Programming the `k`-th entry's slot raises: the loop stops there, the
      failure is reported once, and the disconnect, the call after the one
      that raised, still follows. */
  lemma CharacterCallFails(backlight: bool, cursor: bool, blinking: bool, cs: seq<CharEntry>, k: nat)
    requires k < |cs| && WellFormed(cs[..k + 1]) && SlotInRange(cs[k].id)
    ensures var p := 3 + SlotCount(cs[..k]);
      ConfigurationSession(backlight, cursor, blinking, Chars(cs), {p}) ==
        Setup(backlight, cursor, blinking) + CharEvents(cs[..k]) + [LogError(CustomCharFileFailed), Disconnect]
  {
    var p := 3 + SlotCount(cs[..k]);
    LoadCallFails(cs, k);
    AfterSetupRaised(Chars(cs), 3, {p});
    SetupSucceeds(backlight, cursor, blinking, Chars(cs), {p});
  }

  /** The events the loading block can leave behind. */
  predicate LoaderEvent(e: Event) {
    || (e.SetCustomCharacter? && SlotInRange(e.index))
    || e == LogError(NoCustomChars)
    || (e.LogError? && e.msg.CharIndexOutOfRange? && !SlotInRange(e.msg.id))
  }

  lemma RunCharEvents(c: CharEntry, next: nat, failing: set<nat>)
    ensures forall e | e in RunChar(c, next, failing).events :: LoaderEvent(e)
  {
    if c.CharDef? && SlotInRange(c.id) {
      IssueOutcome([SetCustomCharacter(c.id, c.pattern)], next, failing);
    }
  }

  lemma {:induction false} RunCharsEvents(cs: seq<CharEntry>, next: nat, failing: set<nat>)
    decreases |cs|
    ensures forall e | e in RunChars(cs, next, failing).events :: LoaderEvent(e)
  {
    if cs != [] {
      var r := RunChar(cs[0], next, failing);
      RunCharEvents(cs[0], next, failing);
      if r.exit == Finished {
        RunCharsEvents(cs[1..], r.next, failing);
      }
    }
  }

  /** The loading block leaves only loader events behind. */
  lemma LoadEvents(file: CharFile, next: nat, failing: set<nat>)
    ensures forall e | e in LoadCharacters(file, next, failing).events :: LoaderEvent(e)
  {
    match file
    case Unreadable =>
    case Chars(cs) => RunCharsEvents(cs, next, failing);
  }

  /** What follows a setup that went through ends with the disconnect or one
      failed-configuration line, the first exactly when the disconnect call
      goes through, and holds no earlier disconnect. */
  lemma AfterSetupEnds(file: CharFile, next: nat, failing: set<nat>)
    ensures var u := AfterSetup(file, next, failing);
      && |u| > 0
      && u[|u| - 1] == (if LoadCharacters(file, next, failing).next in failing then LogError(SetConfigFailed) else Disconnect)
      && Disconnect !in u[..|u| - 1]
  {
    var load := LoadCharacters(file, next, failing);
    LoadEvents(file, next, failing);
    var caught := if load.exit == Raised then [LogError(CustomCharFileFailed)] else [];
    var last := if load.next in failing then LogError(SetConfigFailed) else Disconnect;
    var u := AfterSetup(file, next, failing);
    assert u == (load.events + caught) + [last];
    assert u[..|u| - 1] == load.events + caught;
    assert Disconnect !in load.events;
  }

  /** What follows a setup programs only slots in range. */
  lemma AfterSetupSlots(file: CharFile, next: nat, failing: set<nat>)
    ensures forall e | e in AfterSetup(file, next, failing) && e.SetCustomCharacter? :: SlotInRange(e.index)
  {
    var load := LoadCharacters(file, next, failing);
    LoadEvents(file, next, failing);
    var caught := if load.exit == Raised then [LogError(CustomCharFileFailed)] else [];
    var last := if load.next in failing then LogError(SetConfigFailed) else Disconnect;
    assert AfterSetup(file, next, failing) == load.events + (caught + [last]);
  }

  /** How a session whose setup fails ends. */
  lemma SetupFailsEnds(backlight: bool, cursor: bool, blinking: bool, file: CharFile, failing: set<nat>)
    requires 0 in failing || 1 in failing || 2 in failing
    ensures var t := ConfigurationSession(backlight, cursor, blinking, file, failing);
      && 0 < |t| <= 3
      && t[|t| - 1] == LogError(SetConfigFailed)
      && Disconnect !in t[..|t| - 1]
  {
    SetupFails(backlight, cursor, blinking, file, failing);
  }

  /** How a session whose setup goes through ends. */
  lemma SetupSucceedsEnds(backlight: bool, cursor: bool, blinking: bool, file: CharFile, failing: set<nat>)
    requires 0 !in failing && 1 !in failing && 2 !in failing
    ensures var t := ConfigurationSession(backlight, cursor, blinking, file, failing);
      && |t| > 3
      && t[|t| - 1] == (if LoadCharacters(file, 3, failing).next in failing then LogError(SetConfigFailed) else Disconnect)
      && Disconnect !in t[..|t| - 1]
  {
    var t := ConfigurationSession(backlight, cursor, blinking, file, failing);
    SetupSucceeds(backlight, cursor, blinking, file, failing);
    var u := AfterSetup(file, 3, failing);
    AfterSetupEnds(file, 3, failing);
    assert t[..|t| - 1] == Setup(backlight, cursor, blinking) + u[..|u| - 1];
    assert t[|t| - 1] == u[|u| - 1];
  }

  /** Whatever the file holds and whichever calls raise, the session ends
      with the disconnect or with one failed-configuration line, the first
      exactly when the setup and the disconnect go through, and the
      disconnect never comes earlier. */
  lemma ConfigurationEnds(backlight: bool, cursor: bool, blinking: bool, file: CharFile, failing: set<nat>)
    ensures var t := ConfigurationSession(backlight, cursor, blinking, file, failing);
      && |t| > 0
      && (t[|t| - 1] == Disconnect || t[|t| - 1] == LogError(SetConfigFailed))
      && (t[|t| - 1] == Disconnect <==>
            0 !in failing && 1 !in failing && 2 !in failing && LoadCharacters(file, 3, failing).next !in failing)
      && Disconnect !in t[..|t| - 1]
  {
    if 0 !in failing && 1 !in failing && 2 !in failing {
      SetupSucceedsEnds(backlight, cursor, blinking, file, failing);
    } else {
      SetupFailsEnds(backlight, cursor, blinking, file, failing);
    }
  }

  /** Whatever the file holds and whichever calls raise, every slot
      programmed is in range and comes after the connect, the backlight and
      the cursor mode. */
  lemma ConfigurationSlots(backlight: bool, cursor: bool, blinking: bool, file: CharFile, failing: set<nat>)
    ensures var t := ConfigurationSession(backlight, cursor, blinking, file, failing);
      forall k | 0 <= k < |t| && t[k].SetCustomCharacter? ::
        3 <= k && t[..3] == Setup(backlight, cursor, blinking) && SlotInRange(t[k].index)
  {
    var t := ConfigurationSession(backlight, cursor, blinking, file, failing);
    SetupFails(backlight, cursor, blinking, file, failing);
    if 0 !in failing && 1 !in failing && 2 !in failing {
      SetupSucceeds(backlight, cursor, blinking, file, failing);
      var setup := Setup(backlight, cursor, blinking);
      var u := AfterSetup(file, 3, failing);
      AfterSetupSlots(file, 3, failing);
      forall k | 0 <= k < |t| && t[k].SetCustomCharacter?
        ensures 3 <= k && t[..3] == setup && SlotInRange(t[k].index)
      {
        assert k >= 3;
        assert t[k] == u[k - 3];
        assert t[k] in u;
      }
    }
  }
}
