/**
 * The bot's commands and background steps over the event list.  `EventBoard` is the
 * process-wide list of events together with the remote events.json file as last committed; the
 * create command appends to the list, the announcer flips a record's `started` flag, the
 * scheduler rewrites start times in place while choosing which records get an announce task,
 * and each change is followed by a whole-list commit.  The list and end commands work on a
 * freshly fetched copy instead of the in-memory list.
 */
module Bot {
  import opened Wrappers
  import opened Events
  import TimeDelay
  import Access
  import Announcement

  /** One line of a listing: the event's name, start time and creator id. */
  datatype Entry = Entry(name: string, start: StartTime, creatorId: int)

  function EntryOf(e: Event): Entry {
    Entry(e.name, e.start, e.creator.id)
  }

  function Entries(es: seq<Event>): seq<Entry> {
    seq(|es|, i requires 0 <= i < |es| => EntryOf(es[i]))
  }

  /**
   * How the create command ends: refused, rejected delay, aborted by an uncaught error (no
   * reply is sent), or the record is created and handed an announce task.
   */
  datatype CreateReply =
    | NotStaff
    | InvalidDelay(message: string)
    | Aborted
    | WillBePosted(seconds: nat, task: nat)
    | PostedNow(task: nat)

  datatype ListReply = NoUpcomingEvents | UpcomingList(entries: seq<Entry>)

  datatype EndReply = EndRefused | Summary(heading: string, entries: seq<Entry>)

  const UpcomingHeading: string := "🗓️ **Current Upcoming Events:**"
  const NoUpcomingHeading: string := "🚫 **There are currently no upcoming events scheduled.**"

  /**
   * The last whole second a timezone-aware datetime can hold, 9999-12-31T23:59:59 UTC, in
   * seconds since the epoch; adding a delay that passes it raises `OverflowError`.
   */
  const MaxStart: int := 253402300799

  /** The conversion loop over a fetched list: every text start time is read back as an instant. */
  method ConvertStartTimes(data: seq<Event>, fromIso: string -> int) returns (out: seq<Event>)
    ensures |out| == |data| && Loaded(out)
    ensures forall i :: 0 <= i < |data| && data[i].start.At? ==> out[i] == data[i]
    ensures forall i :: 0 <= i < |data| && data[i].start.IsoText? ==>
      out[i] == data[i].(start := At(fromIso(data[i].start.text)))
  {
    out := data;
    var i := 0;
    while i < |out|
      invariant 0 <= i <= |out| == |data|
      invariant forall k :: 0 <= k < i ==> out[k].start.At?
      invariant forall k :: 0 <= k < |data| && (i <= k || data[k].start.At?) ==> out[k] == data[k]
      invariant forall k :: 0 <= k < i && data[k].start.IsoText? ==>
        out[k] == data[k].(start := At(fromIso(data[k].start.text)))
    {
      if out[i].start.IsoText? {
        out := out[i := out[i].(start := At(fromIso(out[i].start.text)))];
      }
      i := i + 1;
    }
  }

  /** An upcoming listing is empty exactly when no record is upcoming. */
  lemma UpcomingEmpty(es: seq<Event>, now: int)
    ensures Upcoming(es, now) == [] <==> forall i :: 0 <= i < |es| ==> !IsUpcoming(es[i], now)
  {
    UpcomingIsSelection(es, now);
    UpcomingIndicesExact(es, now);
    if Upcoming(es, now) != [] {
      assert UpcomingIndices(es, now)[0] in UpcomingIndices(es, now);
    }
  }

  /** The list command: the upcoming events of a freshly fetched copy, or a notice that there are none. */
  method EventsCommand(fetched: seq<Event>, now: int, fromIso: string -> int) returns (reply: ListReply)
    ensures reply == NoUpcomingEvents <==>
      forall i :: 0 <= i < |fetched| ==> !IsUpcoming(LoadAll(fetched, fromIso)[i], now)
    ensures reply.UpcomingList? ==> reply.entries == Entries(Upcoming(LoadAll(fetched, fromIso), now))
  {
    var current := ConvertStartTimes(fetched, fromIso);
    assert current == LoadAll(fetched, fromIso);
    var upcoming := Upcoming(current, now);
    UpcomingEmpty(current, now);
    if upcoming == [] {
      return NoUpcomingEvents;
    }
    return UpcomingList(Entries(upcoming));
  }

  /**
   * The end command (staff only): after stripping the Participant role, which is not modelled,
   * it converts the fetched copy's start times once more and summarises its upcoming events
   * under a heading that says whether there are any.
   */
  method EndCommand(caller: Access.User, fetched: seq<Event>, now: int, fromIso: string -> int)
    returns (reply: EndReply)
    ensures reply == EndRefused <==> !Access.StaffOnly(caller)
    ensures reply.Summary? ==> reply.entries == Entries(Upcoming(LoadAll(fetched, fromIso), now))
    ensures reply.Summary? ==>
      reply.heading == (if reply.entries == [] then NoUpcomingHeading else UpcomingHeading)
  {
    if !Access.StaffOnly(caller) {
      return EndRefused;
    }
    var current := ConvertStartTimes(fetched, fromIso);
    current := ConvertStartTimes(current, fromIso);
    assert current == LoadAll(fetched, fromIso);
    var upcoming := Upcoming(current, now);
    var heading := if upcoming != [] then UpcomingHeading else NoUpcomingHeading;
    return Summary(heading, Entries(upcoming));
  }

  /** A new record with start `now + delay` is upcoming at `now` exactly when the delay is positive. */
  lemma NewEventUpcomingIffDelayed(es: seq<Event>, e: Event, now: int, delay: nat)
    requires e.start == At(now + delay) && !e.started
    ensures IsUpcoming(e, now) <==> delay > 0
    ensures Upcoming(es + [e], now) == Upcoming(es, now) + (if delay > 0 then [e] else [])
    ensures UpcomingIndices(es + [e], now) == UpcomingIndices(es, now) + (if delay > 0 then [|es|] else [])
  {
    UpcomingAfterAppend(es, e, now);
  }

  /** One more step of the scheduler's walk adds position `i` exactly when that record is upcoming. */
  lemma SelectionStep(list: seq<Event>, i: nat, now: int)
    requires i < |list|
    ensures UpcomingIndices(list[..i + 1], now) ==
      UpcomingIndices(list[..i], now) + (if IsUpcoming(list[i], now) then [i] else [])
  {
    assert list[..i + 1] == list[..i] + [list[i]];
    UpcomingAfterAppend(list[..i], list[i], now);
  }

  class EventBoard {
    /** Renders an instant as ISO-8601 text, for commits. */
    const toIso: int -> string
    /** Reads ISO-8601 text back as an instant, for loads. */
    const fromIso: string -> int
    /** The in-memory event list, in storage order. */
    var events: seq<Event>
    /** The remote events.json content as last committed. */
    var stored: seq<Event>

    /** The in-memory list holds only instants. */
    ghost predicate Valid()
      reads this
    {
      Loaded(events)
    }

    /** Start-up: the remote file is fetched and its start times converted. */
    constructor (remote: seq<Event>, toIso: int -> string, fromIso: string -> int)
      ensures Valid()
      ensures this.toIso == toIso && this.fromIso == fromIso
      ensures events == LoadAll(remote, fromIso) && stored == remote
    {
      this.toIso := toIso;
      this.fromIso := fromIso;
      var data := ConvertStartTimes(remote, fromIso);
      events := data;
      stored := remote;
    }

    /** The commit: the whole list, with start times as text, replaces the remote file. */
    method SaveEvents()
      modifies this`stored
      ensures stored == SerializeAll(events, toIso)
    {
      stored := SerializeAll(events, toIso);
    }

    /**
     * Walks the list, converting any text start time in place, and hands an announce task to
     * each record that is unstarted and starts after `now`.
     */
    method ScheduleUpcoming(now: int) returns (tasks: seq<nat>)
      modifies this`events
      ensures Valid()
      ensures events == LoadAll(old(events), fromIso)
      ensures old(Valid()) ==> events == old(events)
      ensures tasks == UpcomingIndices(events, now)
    {
      var list := events;
      var i := 0;
      tasks := [];
      while i < |list|
        invariant events == old(events)
        invariant 0 <= i <= |list| == |events|
        invariant forall k :: 0 <= k < i ==> list[k] == Parsed(events[k], fromIso)
        invariant forall k :: i <= k < |list| ==> list[k] == events[k]
        invariant tasks == UpcomingIndices(list[..i], now)
      {
        if list[i].start.IsoText? {
          list := list[i := list[i].(start := At(fromIso(list[i].start.text)))];
        }
        SelectionStep(list, i, now);
        if !list[i].started && list[i].start.seconds > now {
          tasks := tasks + [i];
        }
        i := i + 1;
      }
      assert list[..i] == list;
      assert list == LoadAll(events, fromIso);
      LoadIdempotent(events, fromIso);
      events := list;
    }

    /**
     * The create command.  Non-staff callers, malformed delays and a start past `MaxStart`
     * change nothing; otherwise one unstarted record starting at `now` plus the delay is
     * appended, the list is committed, and an announce task is handed the new record.
     */
    method CreateEvent(caller: Access.User, name: string, info: string, delay: string,
                       reward1: string, reward2: string, reward3: string, now: int)
      returns (reply: CreateReply)
      requires Valid()
      modifies this
      ensures Valid()
      ensures !Access.StaffOnly(caller) ==>
        reply == NotStaff && events == old(events) && stored == old(stored)
      ensures Access.StaffOnly(caller) && TimeDelay.ParseTimeDelay(delay).InvalidFormat? ==>
        reply == InvalidDelay(TimeDelay.InvalidFormatReply) && events == old(events) && stored == old(stored)
      ensures Access.StaffOnly(caller) && TimeDelay.ParseTimeDelay(delay).Ok? &&
              now + TimeDelay.ParseTimeDelay(delay).seconds > MaxStart ==>
        reply == Aborted && events == old(events) && stored == old(stored)
      ensures Access.StaffOnly(caller) && TimeDelay.ParseTimeDelay(delay).Ok? &&
              now + TimeDelay.ParseTimeDelay(delay).seconds <= MaxStart ==>
        var d := TimeDelay.ParseTimeDelay(delay).seconds;
        && events == old(events) + [Event(name, info, reward1, reward2, reward3, At(now + d), false,
                                          Creator(caller.id, caller.tag))]
        && stored == SerializeAll(events, toIso)
        && reply == (if d > 0 then WillBePosted(d, |old(events)|) else PostedNow(|old(events)|))
    {
      if !Access.StaffOnly(caller) {
        return NotStaff;
      }
      var parsed := TimeDelay.ParseTimeDelay(delay);
      if parsed.InvalidFormat? {
        return InvalidDelay(TimeDelay.InvalidFormatReply);
      }
      var delaySeconds := parsed.seconds;
      if now + delaySeconds > MaxStart {
        return Aborted;
      }
      var creator := Creator(caller.id, caller.tag);
      var eventData := Event(name, info, reward1, reward2, reward3, At(now + delaySeconds), false, creator);
      events := events + [eventData];
      SaveEvents();
      var task := |events| - 1;
      if delaySeconds > 0 {
        reply := WillBePosted(delaySeconds, task);
      } else {
        reply := PostedNow(task);
      }
    }

    /**
     * The announcer for record `i`, once its wait is over.  Without a guild or a channel the
     * bot may post in, nothing happens; otherwise the announcement is posted, the record is
     * marked started and the list is committed.
     */
    method AnnounceEvent(i: nat, channelFound: bool) returns (post: Option<Announcement.Post>)
      requires Valid() && i < |events|
      modifies this
      ensures Valid()
      ensures !channelFound ==> post == None && events == old(events) && stored == old(stored)
      ensures channelFound ==>
        && post == Some(Announcement.PostOf(old(events)[i]))
        && events == MarkStarted(old(events), i)
        && stored == SerializeAll(events, toIso)
    {
      if !channelFound {
        return None;
      }
      post := Some(Announcement.PostOf(events[i]));
      events := events[i := events[i].(started := true)];
      SaveEvents();
    }
  }
}
