/**
 * What the announcer posts for an event: a role mention, then an embed carrying the event's
 * title, description, one field per non-empty reward and the participation instructions, and
 * the check-mark reaction users click to take part.
 */
module Announcement {
  import Text
  import opened Events

  const RoleMention: string := "<@&1377228208302329936>"
  const CheckMark: string := "✅"

  const FirstPlaceLabel: string := "🎁 1st Place Reward"
  const SecondPlaceLabel: string := "🎁 2nd Place Reward"
  const ThirdPlaceLabel: string := "🎁 3rd Place Reward"
  const ParticipationText: string :=
    "To participate in this event, tick the reaction below and you will be given the Participant role."

  datatype Field = Field(name: string, value: string)

  datatype Embed = Embed(title: string, description: string, fields: seq<Field>, footer: string)

  /** The two messages and the reaction the announcer sends, in order. */
  datatype Post = Post(mention: string, embed: Embed, reaction: string)

  /** The closing field: no name, the instructions as its value. */
  const ParticipationField: Field := Field("", ParticipationText)

  /** A reward field is added only when that reward text is non-empty (a Python truthy string). */
  function EmbedFields(e: Event): seq<Field> {
    (if e.reward1 != "" then [Field(FirstPlaceLabel, e.reward1)] else [])
    + (if e.reward2 != "" then [Field(SecondPlaceLabel, e.reward2)] else [])
    + (if e.reward3 != "" then [Field(ThirdPlaceLabel, e.reward3)] else [])
    + [ParticipationField]
  }

  function EmbedOf(e: Event): Embed {
    Embed(Text.Upper(e.name), e.info, EmbedFields(e), "Created by " + e.creator.name)
  }

  function PostOf(e: Event): Post {
    Post(RoleMention, EmbedOf(e), CheckMark)
  }

  /** The three possible reward fields, first place first. */
  function RankedRewards(e: Event): seq<Field> {
    [Field(FirstPlaceLabel, e.reward1), Field(SecondPlaceLabel, e.reward2), Field(ThirdPlaceLabel, e.reward3)]
  }

  /** The fields whose value is non-empty, in their original order. */
  function NonEmpty(fs: seq<Field>): seq<Field> {
    if fs == [] then [] else (if fs[0].value != "" then [fs[0]] else []) + NonEmpty(fs[1..])
  }

  /** The embed lists exactly the non-empty rewards, in first, second, third order, then the participation field. */
  lemma EmbedFieldsAreRankedRewards(e: Event)
    ensures EmbedOf(e).fields == NonEmpty(RankedRewards(e)) + [ParticipationField]
  {
    var r := RankedRewards(e);
    assert r[1..][1..][1..] == [];
    assert NonEmpty(r[1..][1..]) == (if e.reward3 != "" then [r[2]] else []);
    assert NonEmpty(r[1..]) == (if e.reward2 != "" then [r[1]] else []) + NonEmpty(r[1..][1..]);
    assert NonEmpty(r) == (if e.reward1 != "" then [r[0]] else []) + NonEmpty(r[1..]);
  }

  /**
   * Each reward appears as a field exactly when it is non-empty, one field per non-empty reward
   * plus exactly one participation field, which comes last.
   */
  lemma EmbedRewardFields(e: Event)
    ensures Field(FirstPlaceLabel, e.reward1) in EmbedOf(e).fields <==> e.reward1 != ""
    ensures Field(SecondPlaceLabel, e.reward2) in EmbedOf(e).fields <==> e.reward2 != ""
    ensures Field(ThirdPlaceLabel, e.reward3) in EmbedOf(e).fields <==> e.reward3 != ""
    ensures |EmbedOf(e).fields| ==
      1 + (if e.reward1 != "" then 1 else 0) + (if e.reward2 != "" then 1 else 0) + (if e.reward3 != "" then 1 else 0)
    ensures EmbedOf(e).fields[|EmbedOf(e).fields| - 1] == ParticipationField
    ensures forall k :: 0 <= k < |EmbedOf(e).fields| - 1 ==> EmbedOf(e).fields[k] != ParticipationField
  {
    assert FirstPlaceLabel != "" && SecondPlaceLabel != "" && ThirdPlaceLabel != "";
    assert FirstPlaceLabel != SecondPlaceLabel && SecondPlaceLabel != ThirdPlaceLabel && FirstPlaceLabel != ThirdPlaceLabel;
  }
}
