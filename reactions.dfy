/**
 * The reaction-added listener.  It ignores the bot's own reactions, lookups that fail and any
 * emoji other than the check mark; otherwise it walks the in-memory event list in storage order
 * and stops at the first started event whose name equals the reacted message's first embed
 * title, ignoring case.  For that event the member is given the Participant role, provided the
 * role exists and the member does not already hold it.
 */
module Reactions {
  import Text
  import opened Wrappers
  import opened Events
  import Announcement

  datatype Member = Member(hasParticipantRole: bool)

  /** The reacted message, by the titles of its embeds (an embed without a title has ""). */
  datatype Message = Message(embedTitles: seq<string>)

  /**
   * One reaction event together with the results of the lookups the listener makes: the guild,
   * the reacting member, the channel, the fetched message and the guild's Participant role.
   */
  datatype Reaction = Reaction(
    userId: int,
    emoji: string,
    guildFound: bool,
    member: Option<Member>,
    channelFound: bool,
    message: Option<Message>,
    participantRoleExists: bool)

  datatype Outcome = Ignored | NoEventMatched | Matched(index: nat, grantRole: bool)

  /** The guards before the search: not the bot itself, every lookup succeeded, and the check mark. */
  predicate Handled(r: Reaction, botUserId: int) {
    r.userId != botUserId && r.guildFound && r.member.Some? && r.channelFound && r.message.Some?
    && r.emoji == Announcement.CheckMark
  }

  /** The listener's match rule between an event record and a reacted message. */
  predicate AnnouncedBy(e: Event, m: Message) {
    e.started && |m.embedTitles| > 0 && m.embedTitles[0] != ""
    && Text.Lower(m.embedTitles[0]) == Text.Lower(e.name)
  }

  method OnRawReactionAdd(events: seq<Event>, botUserId: int, r: Reaction) returns (outcome: Outcome)
    ensures outcome == Ignored <==> !Handled(r, botUserId)
    ensures outcome == NoEventMatched <==>
      Handled(r, botUserId) && forall j :: 0 <= j < |events| ==> !AnnouncedBy(events[j], r.message.value)
    ensures outcome.Matched? ==>
      Handled(r, botUserId) && outcome.index < |events|
      && AnnouncedBy(events[outcome.index], r.message.value)
      && (forall j :: 0 <= j < outcome.index ==> !AnnouncedBy(events[j], r.message.value))
      && outcome.grantRole == (r.participantRoleExists && !r.member.value.hasParticipantRole)
  {
    if r.userId == botUserId || !r.guildFound || r.member.None? || !r.channelFound || r.message.None? {
      return Ignored;
    }
    if r.emoji != Announcement.CheckMark {
      return Ignored;
    }
    var message := r.message.value;
    var k := 0;
    while k < |events|
      invariant 0 <= k <= |events|
      invariant forall j :: 0 <= j < k ==> !AnnouncedBy(events[j], message)
    {
      if events[k].started && |message.embedTitles| > 0 {
        var title := message.embedTitles[0];
        if title != "" && Text.Lower(title) == Text.Lower(events[k].name) {
          return Matched(k, r.participantRoleExists && !r.member.value.hasParticipantRole);
        }
      }
      k := k + 1;
    }
    return NoEventMatched;
  }

  /**
   * The announcement posted for an event, once the event is marked started, is recognised as
   * that event's exactly when its name is non-empty: the title is the name in capitals, and an
   * empty title is never matched.  This rests on the ASCII case mapping of `Text`, where
   * lower-casing undoes upper-casing; Python's Unicode mapping does not always undo it (an event
   * named "Straße" is announced as "STRASSE", which lower-cases to "strasse"), and then the
   * announcement is not matched to its own event.
   */
  lemma AnnouncementRecognised(e: Event)
    ensures AnnouncedBy(e.(started := true), Message([Announcement.EmbedOf(e).title])) <==> e.name != ""
  {
    Text.LowerOfUpper(e.name);
  }
}
