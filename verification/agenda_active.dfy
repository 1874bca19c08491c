/** `GET /api/agenda/active`: from the live agenda document, the manually
    flagged item and the item stored right after it. Also the two ways the
    system picks "the" agenda document: the newest by `createdAt` (this
    endpoint) and the first of the listing (the kiosk and the CMS). */
module ActiveAgenda {
  import opened Common
  import opened AgendaSchema

  /** The first position whose item is flagged active. */
  function FirstActiveIndex(items: seq<AgendaItem>): (r: Option<nat>)
    ensures r.Some? ==> r.value < |items| && items[r.value].isActive
    ensures r.Some? ==> forall j :: 0 <= j < r.value ==> !items[j].isActive
    ensures r.None? <==> forall j :: 0 <= j < |items| ==> !items[j].isActive
  {
    if items == [] then None
    else if items[0].isActive then Some(0)
    else match FirstActiveIndex(items[1..])
      case None => None
      case Some(k) => Some(k + 1)
  }

  /** `items.find(it => it.isActive)`. */
  function FirstActive(items: seq<AgendaItem>): (r: Option<AgendaItem>)
    ensures r.Some? ==> r.value in items && r.value.isActive
    ensures r.None? <==> forall j :: 0 <= j < |items| ==> !items[j].isActive
  {
    match FirstActiveIndex(items)
    case None => None
    case Some(k) => Some(items[k])
  }

  /** The endpoint's `{activeItem, nextItem}` response. */
  datatype ActivePair = ActivePair(activeItem: Option<AgendaItem>, nextItem: Option<AgendaItem>)

  /** The computation after the database read: with no document, or no
      flagged item, both are null; otherwise the first flagged item and the
      item following the first item that carries its id. There is no
      time-window fallback. */
  function ActiveAndNext(doc: Option<AgendaDoc>): (r: ActivePair)
    ensures r.nextItem.Some? ==> r.activeItem.Some?
    ensures doc.None? ==> r == ActivePair(None, None)
    ensures doc.Some? ==> r.activeItem == FirstActive(doc.value.items)
    ensures r.nextItem.Some? ==> r.nextItem.value in doc.value.items
  {
    match doc
    case None => ActivePair(None, None)
    case Some(d) =>
      match FirstActive(d.items)
      case None => ActivePair(None, None)
      case Some(a) =>
        var idx := IndexOfId(d.items, a.id);
        var next := if idx.Some? && idx.value + 1 < |d.items| then Some(d.items[idx.value + 1]) else None;
        ActivePair(Some(a), next)
  }

  /** The `idx >= 0` guard never fails: the flagged item's id is always found,
      at or before the flagged item's own position. */
  lemma ActiveIdAlwaysFound(items: seq<AgendaItem>)
    requires FirstActiveIndex(items).Some?
    ensures IndexOfId(items, items[FirstActiveIndex(items).value].id).Some?
    ensures IndexOfId(items, items[FirstActiveIndex(items).value].id).value <= FirstActiveIndex(items).value
  {
  }

  /** With unique ids, `nextItem` is exactly the item stored immediately
      after the first flagged one, or null when that one is last. */
  lemma NextFollowsActive(d: AgendaDoc)
    requires UniqueIds(d.items)
    requires FirstActiveIndex(d.items).Some?
    ensures var k := FirstActiveIndex(d.items).value;
      ActiveAndNext(Some(d)) == ActivePair(Some(d.items[k]), if k + 1 < |d.items| then Some(d.items[k + 1]) else None)
  {
    var k := FirstActiveIndex(d.items).value;
    ActiveIdAlwaysFound(d.items);
    var idx := IndexOfId(d.items, d.items[k].id).value;
    assert d.items[idx].id == d.items[k].id;
    assert idx == k;
  }

  /** With no flagged item the response is null/null whatever the items'
      times are. */
  lemma NoManualActiveMeansNone(d: AgendaDoc)
    requires forall j :: 0 <= j < |d.items| ==> !d.items[j].isActive
    ensures ActiveAndNext(Some(d)) == ActivePair(None, None)
  {
  }

  /** `Agenda.findOne().sort({createdAt: -1})`: a document with the greatest
      creation time (the first such one on ties). */
  function NewestDoc(docs: seq<AgendaDoc>): (r: Option<AgendaDoc>)
    ensures r.None? <==> docs == []
    ensures r.Some? ==> r.value in docs
    ensures r.Some? ==> forall j :: 0 <= j < |docs| ==> docs[j].createdAt <= r.value.createdAt
  {
    if docs == [] then None
    else match NewestDoc(docs[1..])
      case None => Some(docs[0])
      case Some(d) => if d.createdAt > docs[0].createdAt then Some(d) else Some(docs[0])
  }

  /** `list?.[0] || null`: the first listed document. */
  function FirstDoc(docs: seq<AgendaDoc>): (r: Option<AgendaDoc>)
    ensures r.None? <==> docs == []
    ensures r.Some? ==> r.value == docs[0]
  {
    if docs == [] then None else Some(docs[0])
  }

  /** The endpoint as a whole, over the stored documents. */
  function ActiveRoute(docs: seq<AgendaDoc>): (r: ActivePair)
    ensures docs == [] ==> r == ActivePair(None, None)
    ensures r.nextItem.Some? ==> r.activeItem.Some?
  {
    ActiveAndNext(NewestDoc(docs))
  }

  /** With a single stored document, both ways of choosing it agree. */
  lemma SingleDocumentAgrees(docs: seq<AgendaDoc>)
    requires |docs| == 1
    ensures FirstDoc(docs) == NewestDoc(docs)
  {
  }

  /** With two documents the listing's first need not be the newest, so the
      kiosk's list and this endpoint can read different documents. */
  lemma DocumentChoiceMayDiffer()
    ensures var older := AgendaDoc("a", [], 1, 1);
            var newer := AgendaDoc("b", [], 2, 2);
            FirstDoc([older, newer]) != NewestDoc([older, newer])
  {
    var older := AgendaDoc("a", [], 1, 1);
    var newer := AgendaDoc("b", [], 2, 2);
    assert NewestDoc([older, newer][1..]) == Some(newer);
  }
}
