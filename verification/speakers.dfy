/** The kiosk's speaker projections: the active speaker (a manually flagged
    item of the listed agenda document wins over the active-agenda endpoint's
    answer) and the marquee of all other speakers. */
module Speakers {
  import opened Common
  import opened AgendaSchema
  import opened ActiveAgenda

  /** `(agendaDoc?.items || []).find(it => it.isActive) || null`. */
  function ExplicitActive(doc: Option<AgendaDoc>): (r: Option<AgendaItem>)
    ensures doc.None? ==> r.None?
    ensures doc.Some? ==> r == FirstActive(doc.value.items)
  {
    match doc
    case None => None
    case Some(d) => FirstActive(d.items)
  }

  /** `explicitActive || agendaActive?.activeItem || null`. */
  function ActiveSpeaker(doc: Option<AgendaDoc>, endpoint: Option<ActivePair>): (r: Option<AgendaItem>)
    ensures r.Some? ==> r == ExplicitActive(doc) || (endpoint.Some? && r == endpoint.value.activeItem)
  {
    if ExplicitActive(doc).Some? then ExplicitActive(doc)
    else if endpoint.Some? then endpoint.value.activeItem
    else None
  }

  /** `agendaActive?.nextItem || null`: the endpoint's next item, none
      without an answer. */
  function NextSpeaker(endpoint: Option<ActivePair>): (r: Option<AgendaItem>)
    ensures endpoint.None? ==> r.None?
    ensures endpoint.Some? ==> r == endpoint.value.nextItem
  {
    if endpoint.Some? then endpoint.value.nextItem else None
  }

  /** With the endpoint answering for a document with unique ids and a
      flagged item, the next speaker is the item right after the first
      flagged one, and none when that item is the last. */
  lemma NextSpeakerFollowsActive(d: AgendaDoc)
    requires UniqueIds(d.items) && FirstActiveIndex(d.items).Some?
    ensures var k := FirstActiveIndex(d.items).value;
      NextSpeaker(Some(ActiveAndNext(Some(d)))) == if k + 1 < |d.items| then Some(d.items[k + 1]) else None
  {
    NextFollowsActive(d);
  }

  /** Without a flagged item the endpoint reports no next speaker. */
  lemma NoNextSpeakerWithoutActive(d: AgendaDoc)
    requires FirstActiveIndex(d.items).None?
    ensures NextSpeaker(Some(ActiveAndNext(Some(d)))).None?
  {
    NoManualActiveMeansNone(d);
  }

  /** The marquee: every speaker except those carrying the active one's id,
      in their original order. */
  function Marquee(all: seq<AgendaItem>, active: Option<AgendaItem>): (r: seq<AgendaItem>)
    ensures forall x :: x in r <==> x in all && (active.None? || x.id != active.value.id)
    ensures active.None? ==> r == all
  {
    if active.None? then all else WithoutId(all, active.value.id)
  }

  /** Manual override: a flagged item of the listed document is the active
      speaker whatever the endpoint answered. */
  lemma ManualOverrideWins(d: AgendaDoc, endpoint: Option<ActivePair>, k: nat)
    requires k < |d.items| && d.items[k].isActive
    requires forall j :: 0 <= j < k ==> !d.items[j].isActive
    ensures ActiveSpeaker(Some(d), endpoint) == Some(d.items[k])
  {
    var f := FirstActiveIndex(d.items);
    assert f.Some?;
  }

  /** With no flagged item, the endpoint's answer is used; with neither,
      nothing is active. */
  lemma FallbackToEndpoint(doc: Option<AgendaDoc>, endpoint: Option<ActivePair>)
    requires ExplicitActive(doc).None?
    ensures endpoint.Some? ==> ActiveSpeaker(doc, endpoint) == endpoint.value.activeItem
    ensures endpoint.None? || endpoint.value.activeItem.None? ==> ActiveSpeaker(doc, endpoint).None?
  {
  }

  /** When the endpoint read the same document, both sources name the same
      speaker. */
  lemma SameDocumentSameSpeaker(d: AgendaDoc)
    ensures ActiveSpeaker(Some(d), Some(ActiveAndNext(Some(d)))) == FirstActive(d.items)
  {
  }

  /** The marquee never shows the active speaker, and keeps the others in
      order: it distributes over any split of the speaker list. */
  lemma MarqueeOrder(a: seq<AgendaItem>, b: seq<AgendaItem>, active: Option<AgendaItem>)
    ensures Marquee(a + b, active) == Marquee(a, active) + Marquee(b, active)
  {
    if active.Some? {
      WithoutIdAppend(a, b, active.value.id);
    }
  }

  /** Two items, the second flagged: it is the active speaker at any time and
      the marquee holds only the first. */
  lemma FlaggedSecondItemScenario(first: AgendaItem, second: AgendaItem, endpoint: Option<ActivePair>)
    requires !first.isActive && second.isActive && first.id != second.id
    ensures ActiveSpeaker(Some(AgendaDoc("doc", [first, second], 0, 0)), endpoint) == Some(second)
    ensures Marquee([first, second], Some(second)) == [first]
  {
    ManualOverrideWins(AgendaDoc("doc", [first, second], 0, 0), endpoint, 1);
    assert [first, second][1..] == [second];
    assert WithoutId([second], second.id) == [] by {
      assert [second][1..] == [];
    }
  }
}
