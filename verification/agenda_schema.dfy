/** The agenda document schema (`AgendaItemSchema`, `AgendaSchema`): the item
    record the rest of the system passes around, the schema's validation of a
    raw item (required fields, role enumeration, defaults) and the id-based
    list queries shared by the CMS, the agenda editor and the kiosk. */
module AgendaSchema {
  import opened Common

  const Roles: seq<string> := ["speaker", "moderator", "presenter"]
  const DefaultRole := "speaker"

  /** An agenda item as held by clients. Optional string fields that are
      absent are "", and so is the `_id` of an item not yet stored. */
  datatype AgendaItem = AgendaItem(
    id: string,
    startTime: string,
    endTime: string,
    name: string,
    title: string,
    company: string,
    role: string,
    photoUrl: string,
    infoImageUrl: string,
    isActive: bool)

  /** An item the schema accepts: the required strings are present and
      non-empty, and the role is one of the enumeration's values. */
  predicate ValidItem(it: AgendaItem) {
    it.startTime != "" && it.endTime != "" && it.name != "" && it.role in Roles
  }

  /** An item as submitted, before the schema applies its defaults: every
      field may be missing. */
  datatype RawItem = RawItem(
    id: string,
    startTime: Option<string>,
    endTime: Option<string>,
    name: Option<string>,
    title: Option<string>,
    company: Option<string>,
    role: Option<string>,
    photoUrl: Option<string>,
    infoImageUrl: Option<string>,
    isActive: Option<bool>)

  /** A validation error names every path that failed, as the schema's
      validation error does. */
  datatype Validated = Accepted(item: AgendaItem) | Rejected(paths: set<string>)

  /** A required string is present and non-empty. */
  predicate Supplied(s: Option<string>) {
    s.Some? && s.value != ""
  }

  function FailedPaths(raw: RawItem): set<string> {
    (if Supplied(raw.startTime) then {} else {"startTime"})
    + (if Supplied(raw.endTime) then {} else {"endTime"})
    + (if Supplied(raw.name) then {} else {"name"})
    + (if raw.role.None? || raw.role.value in Roles then {} else {"role"})
  }

  /** Applies the schema: the role defaults to "speaker" and `isActive` to
      false, optional strings default to absent, and the item is accepted
      exactly when no path fails. */
  function Validate(raw: RawItem): (r: Validated)
    ensures r.Accepted? ==> ValidItem(r.item)
    ensures r.Rejected? ==> r.paths != {}
    ensures r.Accepted? <==>
      Supplied(raw.startTime) && Supplied(raw.endTime) && Supplied(raw.name)
      && (raw.role.None? || raw.role.value in Roles)
    ensures r.Rejected? ==>
      && ("startTime" in r.paths <==> !Supplied(raw.startTime))
      && ("endTime" in r.paths <==> !Supplied(raw.endTime))
      && ("name" in r.paths <==> !Supplied(raw.name))
      && ("role" in r.paths <==> raw.role.Some? && raw.role.value !in Roles)
    ensures r.Accepted? ==> r.item.role == raw.role.GetOr(DefaultRole)
    ensures r.Accepted? ==> r.item.isActive == raw.isActive.GetOr(false)
    ensures r.Rejected? ==> r.paths <= {"startTime", "endTime", "name", "role"}
    ensures r.Accepted? ==>
      && r.item.id == raw.id
      && r.item.startTime == raw.startTime.value && r.item.endTime == raw.endTime.value
      && r.item.name == raw.name.value
      && r.item.title == raw.title.GetOr("") && r.item.company == raw.company.GetOr("")
      && r.item.photoUrl == raw.photoUrl.GetOr("") && r.item.infoImageUrl == raw.infoImageUrl.GetOr("")
  {
    var failed := FailedPaths(raw);
    if failed == {} then
      Accepted(AgendaItem(
        raw.id,
        raw.startTime.value,
        raw.endTime.value,
        raw.name.value,
        raw.title.GetOr(""),
        raw.company.GetOr(""),
        raw.role.GetOr(DefaultRole),
        raw.photoUrl.GetOr(""),
        raw.infoImageUrl.GetOr(""),
        raw.isActive.GetOr(false)))
    else
      assert "startTime" in failed || "endTime" in failed || "name" in failed || "role" in failed;
      Rejected(failed)
  }

  /** The item as a client submits it: every field present. */
  function Submitted(it: AgendaItem): RawItem {
    RawItem(it.id, Some(it.startTime), Some(it.endTime), Some(it.name), Some(it.title),
            Some(it.company), Some(it.role), Some(it.photoUrl), Some(it.infoImageUrl),
            Some(it.isActive))
  }

  /** Validation accepts every valid item unchanged, and only valid items. */
  lemma SubmittedRoundTrip(it: AgendaItem)
    ensures ValidItem(it) ==> Validate(Submitted(it)) == Accepted(it)
    ensures !ValidItem(it) ==> Validate(Submitted(it)).Rejected?
  {
  }

  /** The optional fields never make validation fail: removing them leaves
      the verdict unchanged. */
  lemma OptionalFieldsNeverReject(raw: RawItem)
    ensures Validate(raw.(title := None, company := None, photoUrl := None, infoImageUrl := None, isActive := None)).Accepted?
            == Validate(raw).Accepted?
  {
  }

  /** An agenda document: its items in stored order and the timestamps the
      schema maintains. */
  datatype AgendaDoc = AgendaDoc(id: string, items: seq<AgendaItem>, createdAt: int, updatedAt: int)

  predicate ValidDoc(d: AgendaDoc) {
    (forall i :: 0 <= i < |d.items| ==> ValidItem(d.items[i])) && d.createdAt <= d.updatedAt
  }

  /** Stored items carry distinct ids. */
  predicate UniqueIds(items: seq<AgendaItem>) {
    forall i, j :: 0 <= i < |items| && 0 <= j < |items| && items[i].id == items[j].id ==> i == j
  }

  /** `items.findIndex(it => it._id equals id)`: the first position carrying
      the id, or none. */
  function IndexOfId(items: seq<AgendaItem>, id: string): (r: Option<nat>)
    ensures r.Some? ==> r.value < |items| && items[r.value].id == id
    ensures r.Some? ==> forall j :: 0 <= j < r.value ==> items[j].id != id
    ensures r.None? <==> forall j :: 0 <= j < |items| ==> items[j].id != id
  {
    if items == [] then None
    else if items[0].id == id then Some(0)
    else match IndexOfId(items[1..], id)
      case None => None
      case Some(k) => Some(k + 1)
  }

  /** `items.find(it => it._id === id)`. */
  function FindById(items: seq<AgendaItem>, id: string): (r: Option<AgendaItem>)
    ensures r.Some? ==> r.value in items && r.value.id == id
    ensures r.Some? ==> exists k :: 0 <= k < |items| && r.value == items[k] && forall j :: 0 <= j < k ==> items[j].id != id
    ensures r.None? <==> forall j :: 0 <= j < |items| ==> items[j].id != id
  {
    match IndexOfId(items, id)
    case None => None
    case Some(k) => Some(items[k])
  }

  /** `items.filter(it => it._id !== id)`. */
  function WithoutId(items: seq<AgendaItem>, id: string): (r: seq<AgendaItem>)
    ensures forall x :: x in r <==> x in items && x.id != id
    ensures |r| <= |items|
  {
    if items == [] then []
    else if items[0].id == id then WithoutId(items[1..], id)
    else [items[0]] + WithoutId(items[1..], id)
  }

  /** Filtering distributes over concatenation, so the kept items stay in
      their original relative order. */
  lemma {:induction false} WithoutIdAppend(a: seq<AgendaItem>, b: seq<AgendaItem>, id: string)
    ensures WithoutId(a + b, id) == WithoutId(a, id) + WithoutId(b, id)
  {
    if a == [] {
      assert a + b == b;
    } else {
      assert (a + b)[1..] == a[1..] + b;
      WithoutIdAppend(a[1..], b, id);
    }
  }

  /** Nothing to remove leaves the list as it was. */
  lemma {:induction false} WithoutAbsentId(items: seq<AgendaItem>, id: string)
    requires forall j :: 0 <= j < |items| ==> items[j].id != id
    ensures WithoutId(items, id) == items
  {
    if items != [] {
      WithoutAbsentId(items[1..], id);
    }
  }

  /** Removing an id twice is removing it once. */
  lemma WithoutIdIdempotent(items: seq<AgendaItem>, id: string)
    ensures WithoutId(WithoutId(items, id), id) == WithoutId(items, id)
  {
    var r := WithoutId(items, id);
    forall j | 0 <= j < |r| ensures r[j].id != id {
      assert r[j] in r;
    }
    WithoutAbsentId(r, id);
  }

  /** Removing the id of the one item that carries it cuts out that item. */
  lemma {:induction false} CutOutAt(items: seq<AgendaItem>, k: nat)
    requires k < |items|
    requires forall j :: 0 <= j < |items| && j != k ==> items[j].id != items[k].id
    ensures WithoutId(items, items[k].id) == items[..k] + items[k + 1..]
  {
    var id := items[k].id;
    var tail := items[1..];
    if k == 0 {
      assert WithoutId(items, id) == WithoutId(tail, id);
      WithoutAbsentId(tail, id);
    } else {
      assert WithoutId(items, id) == [items[0]] + WithoutId(tail, id);
      assert tail[k - 1] == items[k];
      CutOutAt(tail, k - 1);
      assert tail[..k - 1] == items[1..k] && tail[k..] == items[k + 1..];
      assert items[..k] == [items[0]] + items[1..k];
    }
  }
}
