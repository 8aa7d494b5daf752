/**
 * Event records and the pure projections over the event list: the "upcoming" filter shared by
 * the list command and the end-of-event summary, the scheduler's selection of records that get
 * an announce task, the conversion of stored timestamps on load, and the rewriting of timestamps
 * to text before a commit.  Timestamps are whole seconds; the ISO-8601 text form is produced and
 * read by functions passed in from outside (`toIso`, `fromIso`).
 */
module Events {

  /** The staff member who created an event: their id and their display string. */
  datatype Creator = Creator(id: int, name: string)

  /** A start time is an instant in memory, or ISO-8601 text as it sits in the stored file. */
  datatype StartTime = At(seconds: int) | IsoText(text: string)

  datatype Event = Event(
    name: string,
    info: string,
    reward1: string,
    reward2: string,
    reward3: string,
    start: StartTime,
    started: bool,
    creator: Creator)

  /** Scheduled strictly after `now` and not yet announced. */
  predicate IsUpcoming(e: Event, now: int) {
    e.start.At? && e.start.seconds > now && !e.started
  }

  /** The upcoming events, in storage order. */
  function Upcoming(es: seq<Event>, now: int): seq<Event> {
    if es == [] then []
    else Upcoming(es[..|es| - 1], now) + (if IsUpcoming(es[|es| - 1], now) then [es[|es| - 1]] else [])
  }

  /** The positions the scheduler hands to announce tasks, in storage order. */
  function UpcomingIndices(es: seq<Event>, now: int): seq<nat> {
    if es == [] then []
    else UpcomingIndices(es[..|es| - 1], now) + (if IsUpcoming(es[|es| - 1], now) then [|es| - 1] else [])
  }

  /** Every start time is an instant, as after loading. */
  predicate Loaded(es: seq<Event>) {
    forall i :: 0 <= i < |es| ==> es[i].start.At?
  }

  /** The load step for one record: text start times become instants, instants stay. */
  function Parsed(e: Event, fromIso: string -> int): Event {
    if e.start.IsoText? then e.(start := At(fromIso(e.start.text))) else e
  }

  function LoadAll(es: seq<Event>, fromIso: string -> int): seq<Event> {
    seq(|es|, i requires 0 <= i < |es| => Parsed(es[i], fromIso))
  }

  /** The commit step for one record: instants become text, text stays. */
  function Serialized(e: Event, toIso: int -> string): Event {
    if e.start.At? then e.(start := IsoText(toIso(e.start.seconds))) else e
  }

  function SerializeAll(es: seq<Event>, toIso: int -> string): seq<Event> {
    seq(|es|, i requires 0 <= i < |es| => Serialized(es[i], toIso))
  }

  /** The announcer's transition: record `i` is marked started. */
  function MarkStarted(es: seq<Event>, i: nat): seq<Event>
    requires i < |es|
  {
    es[i := es[i].(started := true)]
  }

  /** The scheduler selects exactly the upcoming positions, each once, in increasing order. */
  lemma {:induction false} UpcomingIndicesExact(es: seq<Event>, now: int)
    ensures forall i :: i in UpcomingIndices(es, now) <==> 0 <= i < |es| && IsUpcoming(es[i], now)
    ensures forall a, b :: 0 <= a < b < |UpcomingIndices(es, now)| ==>
      UpcomingIndices(es, now)[a] < UpcomingIndices(es, now)[b]
  {
    if es != [] {
      var init := es[..|es| - 1];
      UpcomingIndicesExact(init, now);
      forall i | 0 <= i < |init|
        ensures init[i] == es[i]
      {
      }
      var sel, rest := UpcomingIndices(es, now), UpcomingIndices(init, now);
      forall a, b | 0 <= a < b < |sel|
        ensures sel[a] < sel[b]
      {
        if b >= |rest| {
          assert sel[a] == rest[a] && rest[a] in rest;
        }
      }
    }
  }

  /** The upcoming listing is the list read at the scheduler's selected positions. */
  lemma {:induction false} UpcomingIsSelection(es: seq<Event>, now: int)
    ensures |Upcoming(es, now)| == |UpcomingIndices(es, now)|
    ensures forall k :: 0 <= k < |UpcomingIndices(es, now)| ==>
      UpcomingIndices(es, now)[k] < |es| && Upcoming(es, now)[k] == es[UpcomingIndices(es, now)[k]]
  {
    if es != [] {
      var init := es[..|es| - 1];
      UpcomingIsSelection(init, now);
      UpcomingIndicesExact(init, now);
      forall k | 0 <= k < |UpcomingIndices(init, now)|
        ensures UpcomingIndices(init, now)[k] in UpcomingIndices(init, now)
      {
      }
    }
  }

  /** An event is listed as upcoming exactly when it is in the list and upcoming. */
  lemma {:induction false} UpcomingMembership(es: seq<Event>, now: int, e: Event)
    ensures e in Upcoming(es, now) <==> e in es && IsUpcoming(e, now)
  {
    if es != [] {
      var init := es[..|es| - 1];
      UpcomingMembership(init, now, e);
      assert es == init + [es[|es| - 1]];
    }
  }

  /** Appending a record extends the listing by that record exactly when it is upcoming. */
  lemma UpcomingAfterAppend(es: seq<Event>, e: Event, now: int)
    ensures Upcoming(es + [e], now) == Upcoming(es, now) + (if IsUpcoming(e, now) then [e] else [])
    ensures UpcomingIndices(es + [e], now) == UpcomingIndices(es, now) + (if IsUpcoming(e, now) then [|es|] else [])
  {
    assert (es + [e])[..|es|] == es;
  }

  /**
   * Once record `i` is marked started, the scheduler no longer selects it and selects every
   * other position exactly as before; marking it again changes nothing.
   */
  lemma StartedLeavesSelection(es: seq<Event>, i: nat, now: int)
    requires i < |es|
    ensures i !in UpcomingIndices(MarkStarted(es, i), now)
    ensures forall j :: j != i ==> (j in UpcomingIndices(MarkStarted(es, i), now) <==> j in UpcomingIndices(es, now))
    ensures MarkStarted(MarkStarted(es, i), i) == MarkStarted(es, i)
  {
    UpcomingIndicesExact(es, now);
    UpcomingIndicesExact(MarkStarted(es, i), now);
  }

  /** Loading twice is loading once: a converted list has only instants, and loading leaves such a list as it is. */
  lemma LoadIdempotent(es: seq<Event>, fromIso: string -> int)
    ensures Loaded(LoadAll(es, fromIso))
    ensures LoadAll(LoadAll(es, fromIso), fromIso) == LoadAll(es, fromIso)
    ensures Loaded(es) ==> LoadAll(es, fromIso) == es
  {
  }

  /**
   * The commit map keeps length and order, changes only the start time of each record, and
   * leaves only text start times.
   */
  lemma SerializeShape(es: seq<Event>, toIso: int -> string)
    ensures |SerializeAll(es, toIso)| == |es|
    ensures forall i :: 0 <= i < |es| ==>
      SerializeAll(es, toIso)[i] == es[i].(start := SerializeAll(es, toIso)[i].start)
    ensures forall i :: 0 <= i < |es| ==> SerializeAll(es, toIso)[i].start.IsoText?
    ensures forall i :: 0 <= i < |es| && es[i].start.IsoText? ==> SerializeAll(es, toIso)[i] == es[i]
    ensures SerializeAll(SerializeAll(es, toIso), toIso) == SerializeAll(es, toIso)
  {
  }

  /**
   * Committing and loading back gives the loaded form of what was committed: when reading the
   * text form back inverts writing it, every instant returns exactly, to the second.
   */
  lemma LoadAfterSerialize(es: seq<Event>, toIso: int -> string, fromIso: string -> int)
    requires forall t :: fromIso(toIso(t)) == t
    ensures LoadAll(SerializeAll(es, toIso), fromIso) == LoadAll(es, fromIso)
    ensures Loaded(es) ==> LoadAll(SerializeAll(es, toIso), fromIso) == es
  {
    forall i | 0 <= i < |es|
      ensures LoadAll(SerializeAll(es, toIso), fromIso)[i] == LoadAll(es, fromIso)[i]
    {
      if es[i].start.At? {
        assert fromIso(toIso(es[i].start.seconds)) == es[i].start.seconds;
      }
    }
  }
}
