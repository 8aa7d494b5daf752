# Event bot core, modelled in Dafny

This project models the sequential core of a community chat bot that lets staff create timed
events, announces each event when its start time arrives, hands out a Participant role to members
who react to an announcement, and keeps the event list in a JSON file in a hosted repository.

What is modelled, module by module:

- `TimeDelay` (`time_delay.dfy`): the delay argument of the create command, `<digits><s|m|h|d>`
  matched after lower-casing, giving seconds as the digits' value times 1, 60, 3600 or 86400; a
  delay of more than 4300 digits is refused, as `int` refuses to convert it. The
  parser is a character scanner; `WellFormed` and `Number` are an independent reference reading of
  the same format, and the lemmas tie the two together, show case-insensitivity, the rejection of
  empty, signed and trailing-text input, and that rendering a number and a unit parses back.
- `Events` (`events.dfy`): the event record, the "upcoming" predicate (start strictly after `now`
  and not started), the upcoming listing, the scheduler's selection of positions, the `started`
  transition, the load-time conversion of text start times and the commit-time rewriting of start
  times to text.
- `Access` (`access.dfy`): the staff gate in front of the privileged commands.
- `Announcement` (`announcement.dfy`): the role mention, embed and reaction the announcer posts.
- `Reactions` (`reactions.dfy`): the reaction-added listener's guards and its first-match search.
- `Bot` (`bot.dfy`): `EventBoard`, a class holding the process-wide event list and the remote file
  as last committed, with the scheduler, the create command and the announcer as methods that
  change it in place; the list and end commands, which read a freshly fetched copy; and the
  conversion loop run when a copy is loaded.
- `Text` and `Wrappers` (`text.dfy`): ASCII case mapping and an `Option` type.

Timestamps are whole seconds and the current time `now` is a parameter. The ISO-8601 text form
of a timestamp is produced and read by two functions handed to the model (`toIso`, `fromIso`);
the round-trip lemma assumes only that reading inverts writing.

`main.py` has no edit or delete command, no `channel_id` and no `participation_reward` field.
The announcer works on the record it was handed and does not look it up again. The scheduler
does not cancel earlier tasks. The reaction listener identifies an announcement by matching the
message's first embed title against the names of started events.

## Model

| member | source | states |
|---|---|---|
| `TimeDelay.ScanMeaning` | main.py:141-146 | The scanner `Scan`, run over lower-cased text after a run of digits, accepts exactly texts of one to 4300 digits and one unit letter, with value digits × unit seconds; more digits are refused as `int(value)` at line 145 refuses them |
| `TimeDelay.ParseTimeDelayMeaning` | main.py:140-146 | `ParseTimeDelay` succeeds exactly on well-formed delays (one to 4300 digits, then one of s/m/h/d in either case) and then returns the digits' value × 1, 60, 3600 or 86400; every other input is an invalid format |
| `TimeDelay.ParseIgnoresCase` | main.py:141 | Upper- and lower-casing the input does not change the result of `ParseTimeDelay`, so "5M" and "5m" agree |
| `TimeDelay.ParseRejects` | main.py:141-143 | `ParseTimeDelay` rejects the empty string, a leading `-` or `+`, and any text after a valid delay |
| `TimeDelay.DefaultDelayIsImmediate` | main.py:210 | `ParseTimeDelay` turns the default delay "0s" into 0 seconds |
| `TimeDelay.ParseOfRendering` | main.py:140-146 | A number written in decimal followed by a unit letter of either case parses back through `ParseTimeDelay` to that number × the unit's seconds when it has at most 4300 digits, and is an invalid format otherwise |
| `Access.HasStaffRole` | main.py:58 | `any(role.id in STAFF_ROLE_IDS ...)` is true exactly when some role id of the caller is one of the two staff role ids |
| `Access.StaffOnlyMeaning` | main.py:54-58 | `StaffOnly` refuses every non-member and admits a member exactly when one of their role ids is a staff role id |
| `Events.UpcomingIndicesExact` | main.py:202-206 | `UpcomingIndices` holds a position exactly when `IsUpcoming` holds of that record (unstarted, start after `now`), each position once, in increasing order |
| `Events.UpcomingIsSelection` | main.py:273 | The listing `Upcoming` has one entry per position of `UpcomingIndices` and lists the records at those positions, in storage order |
| `Events.UpcomingMembership` | main.py:307 | An event appears in `Upcoming` exactly when it is in the list and `IsUpcoming` holds: unstarted and starting after `now` |
| `Events.UpcomingAfterAppend` | main.py:237 | Appending a record extends `Upcoming` and `UpcomingIndices` by that record exactly when it is upcoming, leaving earlier entries unchanged |
| `Events.StartedLeavesSelection` | main.py:196 | After `MarkStarted` flips a record, `UpcomingIndices` no longer holds it, holds every other position as before, and flipping it again changes nothing |
| `Events.LoadIdempotent` | main.py:130-132 | After `LoadAll` every start time is an instant; converting again changes nothing, and a list of instants is left as it is |
| `Events.SerializeShape` | main.py:106-109 | `SerializeAll` keeps length and order, changes only `start_time`, turns instants into text and passes text through unchanged; applying it twice is applying it once |
| `Events.LoadAfterSerialize` | main.py:106-109 | `LoadAll` after `SerializeAll` gives back the loaded list, each instant equal to the second, when reading the text form inverts writing it |
| `Announcement.EmbedFieldsAreRankedRewards` | main.py:178-189 | The fields of `EmbedOf` are exactly the non-empty rewards, kept in 1st, 2nd, 3rd order, followed by the participation field |
| `Announcement.EmbedRewardFields` | main.py:178-189 | In `EmbedOf`, each reward has a field exactly when it is non-empty; the field count is one per non-empty reward plus one, and the single participation field comes last |
| `Reactions.OnRawReactionAdd` | main.py:329-367 | The bot's own reactions, failed lookups and any emoji but ✅ are ignored; otherwise the first started event whose name equals the first embed title ignoring case is matched, or none if there is no such event, and the role is granted only when it exists and the member lacks it |
| `Reactions.AnnouncementRecognised` | main.py:356-359 | Under ASCII case mapping, `AnnouncedBy` matches the announcement `EmbedOf` posts for a started event to that event exactly when its name is non-empty, since its title is the name in capitals |
| `Bot.ConvertStartTimes` | main.py:128-133 | Loading keeps length and order, turns each text start time into the instant it denotes, leaves other records as they were, and leaves only instants |
| `Bot.UpcomingEmpty` | main.py:309 | The upcoming listing is empty exactly when no record is upcoming |
| `Bot.EventsCommand` | main.py:303-326 | The list command answers "no upcoming events" exactly when no loaded record is upcoming, and otherwise lists the upcoming records' name, start and creator id in storage order |
| `Bot.EndCommand` | main.py:248-301 | Non-staff callers are refused; otherwise the summary lists the same upcoming entries as the list command for the same fetched copy and `now`, under the heading for upcoming events exactly when there are any |
| `Bot.NewEventUpcomingIffDelayed` | main.py:220 | A created record starting at `now + delay` is upcoming exactly when the delay is positive, and is then appended to the listing and the selection |
| `Bot.EventBoard.constructor` | main.py:138 | At start-up the in-memory list is the fetched file with start times converted |
| `Bot.EventBoard.SaveEvents` | main.py:135-136 | The remote file becomes `SerializeAll` of the whole in-memory list: start times as text |
| `Bot.EventBoard.ScheduleUpcoming` | main.py:200-206 | Converts any text start time in place (a loaded list is left unchanged) and hands announce tasks to exactly the positions of `UpcomingIndices`, in order |
| `Bot.EventBoard.CreateEvent` | main.py:208-246 | Non-staff callers, malformed delays (answered with the "❌ Invalid time format" reply) and a start past 9999-12-31T23:59:59 UTC (an uncaught `OverflowError`) leave list and file unchanged; otherwise exactly one unstarted record starting at `now + delay` with the caller as creator is appended, earlier records unchanged, the file is rewritten, and the new record gets an announce task |
| `Bot.EventBoard.AnnounceEvent` | main.py:148-198 | Without a guild or postable channel nothing changes; otherwise the mention and the `EmbedOf` embed with ✅ (`PostOf`) are posted, only that record's `started` becomes true (`MarkStarted`), and the file is rewritten |

## Left out

- The web health-check server and its thread: a web framework and threading.
- Fetching and committing over the hosting API (HTTP, base64, JSON, the revision token, missing
  token and failed responses): network I/O. A failed fetch yields an empty list, which the model
  covers as an empty `remote` or `fetched` argument; a failed commit is not modelled, so `stored`
  always receives the write.
- ISO-8601 formatting and parsing: a library with time zones; they are the `toIso` and `fromIso`
  parameters. A text that does not parse, which would raise, is not modelled.
- Waiting until the start time and running announce tasks concurrently: the model says which
  records get a task (the returned positions), not when tasks run or how they interleave.
- The announcer's hold on the record object is modelled as a position in the list; this is exact
  because the in-memory list is only ever appended to.
- Chat-platform calls: command sync, channel search (reduced to the `channelFound` flag), sending
  messages, adding reactions and roles (reduced to the outcome saying whether to grant), and the
  end command's loop that strips the Participant role from every member.
- The reaction-removed handler, edit and delete commands, `channel_id` and `participation_reward`:
  the modelled code has none of them.
- Records whose `start_time` is missing or not a timestamp, and a comparison of text with an
  instant (which would raise): the model applies the upcoming test only to converted lists, and
  treats a text start time as not upcoming.
- Unicode: `\d` also matches non-ASCII digits, and `str.lower()`/`str.upper()` map non-ASCII
  letters (for example `"ß".upper()` is `"SS"`); the model uses ASCII digits and ASCII case
  mapping only.
- Reactions.AnnouncementRecognised: holds for ASCII case mapping only; with Python's Unicode
  mapping an event named "Straße" is announced as "STRASSE", which lower-cases to "strasse", so
  the listener in `main.py` never matches that announcement to its own event.
- The digit limit of `int` is that of CPython 3.11 and later (4300 digits); older interpreters
  without the limit would accept longer delays, which would then overflow the start time.
