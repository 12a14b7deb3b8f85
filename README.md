# LCD 20x4 bricklet plugin for Domoticz: a Dafny model

The plugin drives a Tinkerforge LCD 20x4 bricklet from the Domoticz home
automation hub. This project models the part of it that talks to the
bricklet:

- **Line-write session** (`write_lines`). A text device holds a JSON array of
  directives `{line, position, clear, text}`. The session connects to the
  bricklet, decodes the array and runs the directives in array order. For
  each directive it checks the line (0-3), then the position (0-19), then
  clears (1: a blank line of 20 spaces at column 0, 2: the whole display),
  writes the text and logs one OK line. It then disconnects. An empty
  device text, an out-of-range directive and an exception each end the
  session with one error line.
- **Configuration session** (`set_configuration`). It connects, switches
  the backlight, sets the cursor mode, programs the custom characters
  read from the custom character file (ids 0-7; any other id is reported
  and skipped) and disconnects. A failure while reading or loading the
  characters is caught and reported, and the disconnect still follows.
- **Status routing** (`status_to_log`): level 1 goes to the hub's normal
  log, level 5 to its error log.
- **The UID guard of `onStart`**: without a bricklet UID nothing is
  attempted. Otherwise the configuration session runs with the backlight on
  and the cursor and blinking off.

## How it is modelled

A session is the sequence of its observable events: calls on the bricklet
(`Connect`, `Backlight`, `SetConfig`, `SetCustomCharacter`, `WriteLine`,
`ClearDisplay`, `Disconnect`) and status lines (`LogOk`, `LogError`, each
carrying a `Message` that names the status and its values).

**Device failures.** The bricklet is described by `failing`, the set of
positions (counted from 0, the connect being 0) of the device calls that
raise. A call that raises emits no event and ends its stretch with `Raised`.
It still takes up its position, so the call after it is the next one.
`Events.Issue` issues a list of calls under that rule.

**Session shape.** Each session is a method that builds its trace step by
step, in the source's own order, with loops over the directives and over
the custom characters. Each method is proved equal to a recursive
specification function (`LineWriteSession`, `ConfigurationSession`).
Lemmas about those functions state what the plugin promises.

**Decoded inputs.** Decoding is taken as input:
- `Decoded`: the device text fails to decode, or decodes to a list of
  `Entry`.
- `Entry`: a directive carrying its values after `int()`, or `Malformed`
  when reading one of its keys raises.
- `CharFile`: the custom character file cannot be opened or decoded, or it
  holds a list of `CharEntry`.
- `CharEntry`: a character whose "char" value is given already stripped and
  split, or `MalformedChar`.

`Text` models Python's `str.strip()` and `str.split(",")`, which turn a
"char" value into the pattern handed to the bricklet.

**Where the code and its comments differ, the model follows the code:**
- The JSON text is decoded after the connect (plugin.py:316 and 323), so an
  undecodable text still yields `Connect` before the error line.
- Neither an out-of-range directive nor an exception in `write_lines`
  disconnects.
- `onStart` passes `(True, False, False)` (plugin.py:130); its comment
  speaks of cursor on and blink on.
- The error level is 5 (plugin.py:86); the comment at plugin.py:373 says 4.
- The custom character pattern stays a list of strings (plugin.py:263). It
  is not converted to numbers and its length is not checked.
- In `set_configuration`, the disconnect is inside the outer `try`, so a
  failing disconnect is reported as a failed configuration.

## Model

| member | source | states |
|---|---|---|
| Events.StatusToLogRoutes | plugin.py:374-379 | A status line lands in the normal log exactly when its level is OK (1), in the error log exactly when it is ERROR (5), and nowhere for any other level; at most one line is ever logged |
| Events.IssueOutcome | plugin.py:339-344 | Device calls issued in order emit a prefix of themselves: all of them exactly when none of their positions fails, otherwise those before the first failing one, and the failing call still takes up its position |
| Text.TrimStart | plugin.py:263 | The result is a suffix of the input, everything removed is white space in Python's sense, and the result does not start with white space |
| Text.TrimEnd | plugin.py:263 | The result is a prefix of the input, everything removed is white space, and the result does not end with white space |
| Text.StripRemovesOuterSpace | plugin.py:263 | `strip()` gives the part of the value between its leading and trailing white space, which neither starts nor ends with white space |
| Text.Split | plugin.py:263 | `split(",")` gives at least one piece and no piece holds the separator |
| Text.JoinSplit | plugin.py:263 | Splitting loses nothing: the pieces joined with the separator give the string back |
| Text.SplitJoin | plugin.py:263 | Pieces free of the separator, joined and split again, are given back unchanged |
| LineWriter.WriteDirective | plugin.py:326-345 | One directive: the line check first, then the position check, each ending the session with its error line; then the clear call, the text write and the OK line, cut short by a call that raises |
| LineWriter.WriteEntries | plugin.py:325-345 | The loop over the decoded array, in array order, stopping at the first directive that is out of range or raises, equals the specification loop |
| LineWriter.WriteLines | plugin.py:303-351 | The whole session equals the specification session; an empty device text gives one error line and no connect; an undecodable text gives the connect and one write-failure line |
| LineWriter.ClearRules | plugin.py:339-345 | Clear mode 1 writes a 20-space line at column 0 before the text, mode 2 clears the display before it, any other mode clears nothing; then the text is written and reported once |
| LineWriter.RunEntryClean | plugin.py:339-345 | On a bricklet that accepts every call, an accepted directive finishes with exactly its device calls and its OK line |
| LineWriter.RunEntriesAppend | plugin.py:325-345 | Accepted directives run one after the other in array order, each leaving its events, and the loop carries on after them |
| LineWriter.AllAccepted | plugin.py:325-345 | A loop over accepted directives runs to its end, leaving the events of every directive in array order |
| LineWriter.CleanBatch | plugin.py:325-348 | A batch of accepted directives gives the connect, every directive's events in array order and one disconnect, which is the last event and appears nowhere before |
| LineWriter.AbortAtOutOfRange | plugin.py:332-337 | The first out-of-range directive leaves the earlier directives' events, then one error line naming the line (checked first) or else the position, and nothing after it: no later directive and no disconnect |
| LineWriter.MalformedAt | plugin.py:325-350 | A directive whose keys cannot be read leaves the earlier directives' events, then one write-failure line, and no disconnect |
| LineWriter.StopAt | plugin.py:325-345 | The loop reaches the first directive that does not finish, with the events of those before it |
| LineWriter.RunEntryFaults | plugin.py:339-350 | Within one directive, failing calls only cut its events short |
| LineWriter.RunEntriesFaults | plugin.py:325-350 | Over the whole loop, failing calls only cut the events short |
| LineWriter.FaultsOnlyTruncate | plugin.py:310-350 | Whatever the bricklet refuses, the session up to its last event is a prefix of the session on a bricklet that accepts every call, and where the two differ the session ends with the one write-failure line |
| LineWriter.RunEntryShape | plugin.py:326-345 | One directive leaves only writes, clears and OK lines, except that an out-of-range directive leaves exactly one error line |
| LineWriter.RunEntriesEvents | plugin.py:325-345 | The loop leaves only writes, clears and OK lines, except for one final error line when it returned early |
| LineWriter.ConnectedEndsOnce | plugin.py:316-350 | After the connect, the loop followed by its close ends once |
| LineWriter.SessionEndsOnce | plugin.py:303-351 | Every session ends with the disconnect or an error line, with no disconnect and no error line before it; when the text is not empty and the connect succeeds, the connect is the first event |
| LineWriter.ExampleHello | plugin.py:294-301 | A directive clearing line 1 and writing "HELLO" gives the connect, the blank line, the write, its OK line and the disconnect |
| LineWriter.ExampleLineFour | plugin.py:332-334 | A directive for line 4 gives the connect and one error line naming line 4, and nothing else |
| Configuration.ReadEntryPattern | plugin.py:261-263 | The pattern read from a "char" value has at least one piece, no piece holds a comma, and joined with commas it gives back the value less its outer white space |
| Configuration.IssueSetup | plugin.py:227-233 | The connect, the backlight and the cursor mode are issued in that order, and each may raise, cutting the setup short |
| Configuration.ProgramCharacter | plugin.py:264-269 | An id in 0-7 programs that slot with the pattern; any other id logs one error line and the loop goes on |
| Configuration.ProgramCharacters | plugin.py:260-269 | The custom character loop, in array order, up to the first entry that raises, equals the specification loop |
| Configuration.LoadFile | plugin.py:255-271 | An unreadable file raises, an empty array logs one error line, any other array is looped over |
| Configuration.SetUp | plugin.py:221-233 | The connect, the backlight and the cursor mode, each of which may raise, as specified |
| Configuration.LoadAndDisconnect | plugin.py:255-275 | The loading block, a failure of which is reported once, then the disconnect |
| Configuration.SetConfiguration | plugin.py:219-279 | The whole configuration session equals the specification session |
| Configuration.SetupFails | plugin.py:221-278 | A setup call that raises ends the session with one failed-configuration line after the events of the calls before it |
| Configuration.SetupSucceeds | plugin.py:227-275 | A setup that goes through is followed by the loading block and the disconnect, starting with the fourth device call |
| Configuration.RunCharAccepted | plugin.py:264-269 | A readable entry whose call goes through leaves exactly one event: its slot programmed, or one error line for an id out of range |
| Configuration.RunCharsAppend | plugin.py:260-269 | Readable entries whose calls go through run one after the other in array order, each leaving its one event, and the loop carries on after them |
| Configuration.RunCharsPrefix | plugin.py:260-269 | The same for the first entries of an array |
| Configuration.CleanConfiguration | plugin.py:219-276 | A non-empty array of readable entries gives the setup, one event per entry in array order (an out-of-range id is reported and the loop goes on), then the disconnect |
| Configuration.LoadClean | plugin.py:259-269 | Over readable entries on a bricklet that accepts every call, the loop runs to its end |
| Configuration.EmptyCharacterArray | plugin.py:259-275 | An empty array gives the setup, one error line, no slot programmed, and the disconnect |
| Configuration.AfterSetupRaised | plugin.py:272-275 | A loading block that raised is reported once and the disconnect still follows |
| Configuration.UnreadableFile | plugin.py:255-275 | A file that cannot be read gives the setup, one error line and the disconnect |
| Configuration.MalformedCharAt | plugin.py:260-275 | An entry that cannot be read stops the loop: the entries before it keep their events, the failure is reported once and the disconnect follows |
| Configuration.LoadCallFails | plugin.py:260-273 | When programming an entry's slot raises, the loop stops there with the events of the entries before it |
| Configuration.CharacterCallFails | plugin.py:260-275 | When programming an entry's slot raises, the failure is reported once and the disconnect, the next call, still follows |
| Configuration.RunCharEvents | plugin.py:264-269 | One entry leaves only slots in range or an error line for an id out of range |
| Configuration.RunCharsEvents | plugin.py:260-269 | The loop leaves only slots in range and error lines for ids out of range |
| Configuration.LoadEvents | plugin.py:255-271 | The loading block leaves only slots in range and its error lines |
| Configuration.AfterSetupEnds | plugin.py:255-278 | After the setup, the session ends with the disconnect exactly when the disconnect call goes through, otherwise with a failed-configuration line, and holds no earlier disconnect |
| Configuration.AfterSetupSlots | plugin.py:260-269 | After the setup, every slot programmed is in 0-7 |
| Configuration.SetupFailsEnds | plugin.py:221-278 | A session whose setup fails has at most three events, ends with the failed-configuration line and holds no disconnect |
| Configuration.SetupSucceedsEnds | plugin.py:221-278 | A session whose setup goes through ends as the part after the setup does, with no earlier disconnect |
| Configuration.ConfigurationEnds | plugin.py:219-279 | Whatever the file holds and whichever calls raise, the session ends with the disconnect or one failed-configuration line; it is the disconnect exactly when the setup and the disconnect go through, and no disconnect comes earlier |
| Configuration.ConfigurationSlots | plugin.py:229-269 | Whatever the file holds and whichever calls raise, every slot programmed is in 0-7 and comes after the connect, the backlight and the cursor mode |
| Plugin.OnStart | plugin.py:124-130 | Without a UID, one error line and no device call; with one, the configuration session with the backlight on and the cursor and blinking off |
| Plugin.StartUpSetup | plugin.py:129-130 | With a UID and a bricklet that accepts the setup calls, the session starts with the connect, the backlight on and the cursor and blinking off |

## Left out

- The Domoticz lifecycle hooks, device creation and the module-level forwarders (`onStop`, `onConnect`, `onMessage`, `onCommand`, `onNotification`, `onDisconnect`, `onHeartbeat`): these are host glue that only calls into the modelled procedures.
- The networking of `IPConnection` and `BrickletLCD20x4`: a foreign vendor library, seen here only as trace events. Constructing the two objects and reading the host address and port are not modelled; the connect is the first call that can raise.
- JSON decoding (`json.loads`, `json.load`), opening the custom character file, and the `int()` conversions of the keys: their results are parameters (`Decoded`, `CharFile` and the entries' values), with a failure marker where they raise.
- The custom character's "name" value is read and carried but never used on the bricklet; the debug line that prints it is not modelled.
- The exact wording of the status lines: a `Message` carries which status it is and the values it reports, not the formatted text. The write-failure line carries the unit and the JSON text, but not `Devices[unit].ID`.
- Debug logging, the debug-mode switch and `dump_config_to_log`: diagnostic output only.
- `string_is_json`, which is unused, and the commented-out heartbeat counter, which is not live code.
- Integer parsing of the custom character pattern: the code hands the bricklet the list of strings.
- The bricklet's own handling of a `write_line` text longer than the display: it is the vendor library's.
