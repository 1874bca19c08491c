/** The CMS page: the exclusive "active" and "play" switches, deleting an
    agenda item by id, the agenda shown sorted by start time, the item
    caption, the selection the page makes from each fetch, and the page
    object whose fields the handlers update. */
module Cms {
  import opened Common
  import opened Entities
  import opened AgendaSchema
  import opened ActiveAgenda
  import opened Http

  // ---------------------------------------------------------------------
  // The agenda "Active" switch.

  /** At most one item is flagged active. */
  predicate AtMostOneActive(items: seq<AgendaItem>) {
    forall i, j :: 0 <= i < |items| && 0 <= j < |items| && items[i].isActive && items[j].isActive ==> i == j
  }

  /** The switch of the item with id `id` set to `checked`: every item with
      that id gets `checked`, every other item `false`; nothing else about
      any item changes. */
  function ToggleActive(items: seq<AgendaItem>, id: string, checked: bool): (r: seq<AgendaItem>)
    ensures |r| == |items|
    ensures forall i :: 0 <= i < |r| ==> r[i].isActive == (checked && items[i].id == id)
    ensures forall i :: 0 <= i < |r| ==> r[i].(isActive := items[i].isActive) == items[i]
  {
    if items == [] then []
    else [items[0].(isActive := checked && items[0].id == id)] + ToggleActive(items[1..], id, checked)
  }

  /** With unique ids, the switch leaves at most one item active, and ids
      stay unique. */
  lemma ToggleActiveExclusive(items: seq<AgendaItem>, id: string, checked: bool)
    requires UniqueIds(items)
    ensures AtMostOneActive(ToggleActive(items, id, checked))
    ensures UniqueIds(ToggleActive(items, id, checked))
  {
    var r := ToggleActive(items, id, checked);
    forall i, j | 0 <= i < |r| && 0 <= j < |r| && r[i].isActive && r[j].isActive ensures i == j {
      assert items[i].id == id == items[j].id;
    }
    forall i, j | 0 <= i < j < |r| ensures r[i].id != r[j].id {
      assert r[i].id == items[i].id && r[j].id == items[j].id;
    }
  }

  /** Switching an item on makes it the one the active-agenda endpoint
      reports, followed by the item stored after it. */
  lemma ToggleOnIsReported(d: AgendaDoc, k: nat)
    requires UniqueIds(d.items) && k < |d.items|
    ensures var items := ToggleActive(d.items, d.items[k].id, true);
      ActiveAndNext(Some(d.(items := items))) ==
        ActivePair(Some(items[k]), if k + 1 < |items| then Some(items[k + 1]) else None)
  {
    var items := ToggleActive(d.items, d.items[k].id, true);
    ToggleActiveExclusive(d.items, d.items[k].id, true);
    var f := FirstActiveIndex(items);
    assert items[k].isActive;
    assert f.Some? && f.value == k;
    NextFollowsActive(d.(items := items));
  }

  /** Switching any item off leaves no item active, so the endpoint reports
      nothing. */
  lemma ToggleOffClearsAll(d: AgendaDoc, id: string)
    ensures ActiveAndNext(Some(d.(items := ToggleActive(d.items, id, false)))) == ActivePair(None, None)
  {
    NoManualActiveMeansNone(d.(items := ToggleActive(d.items, id, false)));
  }

  // ---------------------------------------------------------------------
  // The VVIP "Play" switch.

  /** The switch at position `idx` set to `checked`: that VVIP gets
      `checked`, every other VVIP `false`. */
  function TogglePlay(vvips: seq<Vvip>, idx: nat, checked: bool): (r: seq<Vvip>)
    ensures |r| == |vvips|
    ensures forall i :: 0 <= i < |r| ==> r[i].play == (checked && i == idx)
    ensures forall i :: 0 <= i < |r| ==> r[i].(play := vvips[i].play) == vvips[i]
  {
    seq(|vvips|, i requires 0 <= i < |vvips| => vvips[i].(play := checked && i == idx))
  }

  /** At most one VVIP of the local list plays afterwards, whatever the ids. */
  lemma TogglePlayExclusive(vvips: seq<Vvip>, idx: nat, checked: bool)
    ensures var r := TogglePlay(vvips, idx, checked);
      forall i, j :: 0 <= i < |r| && 0 <= j < |r| && r[i].play && r[j].play ==> i == j
  {
  }

  /** The request the switch sends: only the toggled VVIP's new flag. */
  function PlayRequest(vvips: seq<Vvip>, idx: nat, checked: bool): (r: Request)
    requires idx < |vvips|
    ensures r.verb == PUT && r.body == PlayBody(checked)
    ensures StartsWith(r.url, "/api/vvips/") && r.url[|"/api/vvips/"|..] == vvips[idx].id
  {
    Request(PUT, "/api/vvips/" + vvips[idx].id, PlayBody(checked))
  }

  // ---------------------------------------------------------------------
  // The agenda shown sorted by start time.

  /** `localeCompare(...) <= 0` on "HH:mm" strings, taken as lexicographic
      order on characters. */
  predicate LexLe(a: string, b: string) {
    if a == [] then true
    else if b == [] then false
    else if a[0] != b[0] then a[0] < b[0]
    else LexLe(a[1..], b[1..])
  }

  lemma {:induction false} LexLeTotal(a: string, b: string)
    ensures LexLe(a, b) || LexLe(b, a)
  {
    if a != [] && b != [] && a[0] == b[0] {
      LexLeTotal(a[1..], b[1..]);
    }
  }

  lemma {:induction false} LexLeTrans(a: string, b: string, c: string)
    requires LexLe(a, b) && LexLe(b, c)
    ensures LexLe(a, c)
  {
    if a != [] && b != [] && c != [] && a[0] == b[0] && b[0] == c[0] {
      LexLeTrans(a[1..], b[1..], c[1..]);
    }
  }

  /** Ascending by start time. */
  predicate SortedByStart(s: seq<AgendaItem>) {
    forall i, j :: 0 <= i < j < |s| ==> LexLe(s[i].startTime, s[j].startTime)
  }

  /** Insert `x` before the first item it does not follow. */
  function Insert(x: AgendaItem, s: seq<AgendaItem>): (r: seq<AgendaItem>)
    ensures multiset(r) == multiset(s) + multiset{x}
  {
    if s == [] then [x]
    else if LexLe(x.startTime, s[0].startTime) then [x] + s
    else
      assert s == [s[0]] + s[1..];
      [s[0]] + Insert(x, s[1..])
  }

  lemma {:induction false} InsertSorted(x: AgendaItem, s: seq<AgendaItem>)
    requires SortedByStart(s)
    ensures SortedByStart(Insert(x, s))
  {
    if s != [] && !LexLe(x.startTime, s[0].startTime) {
      InsertSorted(x, s[1..]);
      LexLeTotal(x.startTime, s[0].startTime);
      var r := Insert(x, s);
      forall j | 0 < j < |r| ensures LexLe(s[0].startTime, r[j].startTime) {
        assert r[j] in multiset(Insert(x, s[1..]));
        assert r[j] == x || r[j] in s[1..];
      }
    } else if s != [] {
      forall j | 0 < j < |s| ensures LexLe(x.startTime, s[j].startTime) {
        LexLeTrans(x.startTime, s[0].startTime, s[j].startTime);
      }
    }
  }

  /** `[...items].sort((a, b) => a.startTime.localeCompare(b.startTime))`: a
      sorted copy holding exactly the same items. */
  function SortByStart(items: seq<AgendaItem>): (r: seq<AgendaItem>)
    ensures SortedByStart(r)
    ensures multiset(r) == multiset(items)
    ensures |r| == |items|
  {
    if items == [] then []
    else
      assert items == [items[0]] + items[1..];
      var rest := SortByStart(items[1..]);
      InsertSorted(items[0], rest);
      Insert(items[0], rest)
  }

  /** Sorting an already sorted copy changes nothing. */
  lemma {:induction false} SortSortedIsIdentity(items: seq<AgendaItem>)
    requires SortedByStart(items)
    ensures SortByStart(items) == items
  {
    if items != [] {
      SortSortedIsIdentity(items[1..]);
      assert SortByStart(items[1..]) == items[1..];
      if |items| > 1 {
        assert LexLe(items[0].startTime, items[1].startTime);
      }
    }
  }

  // ---------------------------------------------------------------------
  // The caption under an item's name.

  const Bullet := " \U{2022} "

  /** Title, then ", company" after a title (the bare company without one),
      then " • role" when there is a role. */
  function Caption(it: AgendaItem): (r: string)
    ensures StartsWith(r, it.title)
    ensures r == Join(NonEmpty([it.title, it.company]), ", ") + (if it.role != "" then Bullet + it.role else "")
  {
    assert [it.title, it.company][1..] == [it.company];
    assert NonEmpty([it.company]) == if it.company == "" then [] else [it.company] by {
      assert [it.company][1..] == [];
    }
    it.title
    + (if it.company != "" then (if it.title != "" then ", " + it.company else it.company) else "")
    + (if it.role != "" then Bullet + it.role else "")
  }

  /** The non-empty strings of a list. */
  function NonEmpty(parts: seq<string>): (r: seq<string>)
    ensures forall p :: p in r ==> p != ""
  {
    if parts == [] then []
    else if parts[0] == "" then NonEmpty(parts[1..])
    else [parts[0]] + NonEmpty(parts[1..])
  }

  /** The strings joined with a separator. */
  function Join(parts: seq<string>, sep: string): string {
    if parts == [] then ""
    else if |parts| == 1 then parts[0]
    else parts[0] + sep + Join(parts[1..], sep)
  }


  // ---------------------------------------------------------------------
  // What the page keeps of each fetch.

  /** The home endpoint's reply. */
  datatype HomeReply = HomeReply(ok: bool, video: Option<Video>)

  /** A JSON body that may or may not be an array. */
  datatype Json<T> = ArrayValue(elems: seq<T>) | OtherValue

  /** `fetchTree` and `fetchVvips`, with the caller's `|| []`: the list
      received, or nothing. */
  function ListOrEmpty<T>(reply: Response<seq<T>>): (r: seq<T>)
    ensures reply.Failed? ==> r == []
    ensures reply.Received? ==> r == reply.data
  {
    if reply.Received? then reply.data else []
  }

  /** `fetchHomeVideo`: the video only when the reply says `ok`. */
  function FetchHomeVideo(reply: Response<HomeReply>): (r: Option<Video>)
    ensures r.Some? <==> reply.Received? && reply.data.ok && reply.data.video.Some?
    ensures r.Some? ==> r == reply.data.video
  {
    if reply.Received? && reply.data.ok then reply.data.video else None
  }

  /** `fetchAgenda`: the first document of an array reply, else null. */
  function FetchAgenda(reply: Response<Json<AgendaDoc>>): (r: Option<AgendaDoc>)
    ensures r.Some? <==> reply.Received? && reply.data.ArrayValue? && reply.data.elems != []
    ensures r.Some? ==> r.value == reply.data.elems[0]
  {
    if reply.Received? && reply.data.ArrayValue? then FirstDoc(reply.data.elems) else None
  }

  // ---------------------------------------------------------------------
  // Deleting.

  datatype Kind = AgendaEntry | TreeNode | VvipEntry

  /** What the delete dialog is about. */
  datatype DeleteTarget = DeleteTarget(kind: Kind, id: string)

  /** The request `confirmDelete` sends for a target; none for an agenda item
      while no agenda is loaded (reading its items throws before anything is
      sent). An agenda item is deleted by sending the items that keep a
      different id, in their order. */
  function DeleteRequest(target: DeleteTarget, agenda: Option<AgendaDoc>): (r: Option<Request>)
    ensures r.None? <==> target.kind == AgendaEntry && agenda.None?
    ensures target.kind == AgendaEntry && r.Some? ==>
      && r.value.verb == PUT && r.value.url == "/api/agenda/" + agenda.value.id
      && r.value.body.ItemsBody?
      && (forall x :: x in r.value.body.items <==> x in agenda.value.items && x.id != target.id)
    ensures target.kind != AgendaEntry ==> r.value.verb == DELETE && r.value.body == NoBody
    ensures target.kind == TreeNode ==> r.value.url == "/api/nodes/" + target.id
    ensures target.kind == VvipEntry ==> r.value.url == "/api/vvips/" + target.id
  {
    match target.kind
    case AgendaEntry =>
      if agenda.None? then None
      else Some(Request(PUT, "/api/agenda/" + agenda.value.id, ItemsBody(WithoutId(agenda.value.items, target.id))))
    case TreeNode => Some(Request(DELETE, "/api/nodes/" + target.id, NoBody))
    case VvipEntry => Some(Request(DELETE, "/api/vvips/" + target.id, NoBody))
  }

  /** Deleting an item of an agenda with unique ids sends the list with
      exactly that item cut out. */
  lemma DeleteCutsOneItem(agenda: AgendaDoc, k: nat)
    requires UniqueIds(agenda.items) && k < |agenda.items|
    ensures DeleteRequest(DeleteTarget(AgendaEntry, agenda.items[k].id), Some(agenda)).value.body.items
      == agenda.items[..k] + agenda.items[k + 1..]
  {
    CutOutAt(agenda.items, k);
  }

  /** The refetch `confirmDelete` makes after a delivered request. */
  datatype Refetch =
    | AgendaRefetch(agendaReply: Response<Json<AgendaDoc>>)
    | TreeRefetch(treeReply: Response<seq<Node>>)
    | VvipRefetch(vvipReply: Response<seq<Vvip>>)

  predicate RefetchFor(kind: Kind, refetch: Refetch) {
    match kind
    case AgendaEntry => refetch.AgendaRefetch?
    case TreeNode => refetch.TreeRefetch?
    case VvipEntry => refetch.VvipRefetch?
  }

  // ---------------------------------------------------------------------
  // The page.

  class CmsPage {
    var tree: seq<Node>
    var loading: bool
    var homeVideo: Option<Video>
    var agenda: Option<AgendaDoc>
    var vvips: seq<Vvip>
    var deleteConfirmOpen: bool
    var nodeToDelete: Option<DeleteTarget>
    var deleting: bool

    constructor ()
      ensures tree == [] && !loading && homeVideo.None? && agenda.None? && vvips == []
      ensures !deleteConfirmOpen && nodeToDelete.None? && !deleting
    {
      tree, loading, homeVideo, agenda, vvips := [], false, None, None, [];
      deleteConfirmOpen, nodeToDelete, deleting := false, None, false;
    }

    /** `refreshAll`: the four fetches, each failure already replaced by its
        fallback; the spinner is off afterwards. */
    method RefreshAll(treeReply: Response<seq<Node>>, homeReply: Response<HomeReply>,
                      agendaReply: Response<Json<AgendaDoc>>, vvipReply: Response<seq<Vvip>>)
      modifies this
      ensures tree == ListOrEmpty(treeReply) && homeVideo == FetchHomeVideo(homeReply)
      ensures agenda == FetchAgenda(agendaReply) && vvips == ListOrEmpty(vvipReply)
      ensures !loading
      ensures deleteConfirmOpen == old(deleteConfirmOpen) && nodeToDelete == old(nodeToDelete) && deleting == old(deleting)
    {
      loading := true;
      tree := ListOrEmpty(treeReply);
      homeVideo := FetchHomeVideo(homeReply);
      agenda := FetchAgenda(agendaReply);
      vvips := ListOrEmpty(vvipReply);
      loading := false;
    }

    /** A delete icon: remember the target and open the confirmation. */
    method HandleDeleteClick(kind: Kind, id: string)
      modifies this
      ensures nodeToDelete == Some(DeleteTarget(kind, id)) && deleteConfirmOpen
      ensures unchanged(this`tree, this`agenda, this`vvips, this`deleting, this`homeVideo, this`loading)
    {
      nodeToDelete := Some(DeleteTarget(kind, id));
      deleteConfirmOpen := true;
    }

    /** Cancel (disabled while deleting): the dialog closes, the target is
        kept. */
    method CancelDelete()
      requires !deleting
      modifies this
      ensures !deleteConfirmOpen
      ensures unchanged(this`nodeToDelete, this`tree, this`agenda, this`vvips, this`deleting, this`homeVideo, this`loading)
    {
      deleteConfirmOpen := false;
    }

    /** The first half of `confirmDelete` (the button is disabled while
        deleting): with no target nothing happens; otherwise `deleting` is
        set and the request is issued. Reading the items of a missing agenda
        throws, so that case ends at once with `deleting` off again and the
        dialog still open. */
    method BeginDelete() returns (req: Option<Request>)
      requires !deleting
      modifies this
      ensures nodeToDelete.None? ==> req.None?
      ensures nodeToDelete.Some? ==> req == DeleteRequest(nodeToDelete.value, agenda)
      ensures deleting <==> req.Some?
      ensures unchanged(this`nodeToDelete, this`tree, this`agenda, this`vvips, this`deleteConfirmOpen)
      ensures unchanged(this`homeVideo, this`loading)
    {
      req := None;
      if nodeToDelete.None? {
        return;
      }
      deleting := true;
      req := DeleteRequest(nodeToDelete.value, agenda);
      if req.None? {
        deleting := false;
      }
    }

    /** The second half: once the request settles. If it went through, the
        affected list is refetched, the dialog closes and the target clears;
        if it was rejected, the dialog stays as it was. `deleting` ends off
        either way. */
    method DeleteSettled(delivered: bool, refetch: Refetch)
      requires deleting && nodeToDelete.Some? && RefetchFor(nodeToDelete.value.kind, refetch)
      modifies this
      ensures !deleting
      ensures delivered ==> !deleteConfirmOpen && nodeToDelete.None?
      ensures delivered && refetch.AgendaRefetch? ==> agenda == FetchAgenda(refetch.agendaReply)
      ensures delivered && refetch.TreeRefetch? ==> tree == ListOrEmpty(refetch.treeReply)
      ensures delivered && refetch.VvipRefetch? ==> vvips == ListOrEmpty(refetch.vvipReply)
      ensures delivered && refetch.AgendaRefetch? ==> unchanged(this`tree, this`vvips)
      ensures delivered && refetch.TreeRefetch? ==> unchanged(this`agenda, this`vvips)
      ensures delivered && refetch.VvipRefetch? ==> unchanged(this`tree, this`agenda)
      ensures !delivered ==> unchanged(this`deleteConfirmOpen, this`nodeToDelete, this`tree, this`agenda, this`vvips)
      ensures unchanged(this`homeVideo, this`loading)
    {
      if delivered {
        match refetch {
          case AgendaRefetch(reply) => agenda := FetchAgenda(reply);
          case TreeRefetch(reply) => tree := ListOrEmpty(reply);
          case VvipRefetch(reply) => vvips := ListOrEmpty(reply);
        }
        deleteConfirmOpen := false;
        nodeToDelete := None;
      }
      deleting := false;
    }

    /** An item's "Active" switch: the new list is sent; once the request
        resolves the local agenda takes it (a rejected request leaves it). */
    method ToggleAgendaActive(id: string, checked: bool, delivered: bool) returns (req: Request)
      requires agenda.Some?
      modifies this
      ensures req == Request(PUT, "/api/agenda/" + old(agenda).value.id, ItemsBody(ToggleActive(old(agenda).value.items, id, checked)))
      ensures delivered ==> agenda == Some(old(agenda).value.(items := ToggleActive(old(agenda).value.items, id, checked)))
      ensures !delivered ==> agenda == old(agenda)
      ensures unchanged(this`tree, this`vvips, this`deleting, this`nodeToDelete)
      ensures unchanged(this`deleteConfirmOpen, this`homeVideo, this`loading)
    {
      var items := ToggleActive(agenda.value.items, id, checked);
      req := Request(PUT, "/api/agenda/" + agenda.value.id, ItemsBody(items));
      if delivered {
        agenda := Some(agenda.value.(items := items));
      }
    }

    /** A VVIP's "Play" switch: only that VVIP's flag is sent; once the
        request resolves the local list takes the exclusive update. */
    method ToggleVvipPlay(idx: nat, checked: bool, delivered: bool) returns (req: Request)
      requires idx < |vvips|
      modifies this
      ensures req == PlayRequest(old(vvips), idx, checked)
      ensures delivered ==> vvips == TogglePlay(old(vvips), idx, checked)
      ensures !delivered ==> vvips == old(vvips)
      ensures unchanged(this`tree, this`agenda, this`deleting, this`nodeToDelete)
      ensures unchanged(this`deleteConfirmOpen, this`homeVideo, this`loading)
    {
      req := PlayRequest(vvips, idx, checked);
      if delivered {
        vvips := TogglePlay(vvips, idx, checked);
      }
    }
  }
}
