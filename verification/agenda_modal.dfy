/** The agenda item editor: the blank form, the form opened on an existing
    item, single-field edits, the item list a save sends and where it sends
    it, and the editor object with its `saving` flag. */
module AgendaModal {
  import opened Common
  import opened AgendaSchema
  import opened Http

  /** The blank form: role "speaker", not active, every string empty. */
  function EmptySpeaker(): (r: AgendaItem)
    ensures r.role == DefaultRole && !r.isActive
    ensures r.id == "" && r.startTime == "" && r.endTime == "" && r.name == ""
    ensures r.title == "" && r.company == "" && r.photoUrl == "" && r.infoImageUrl == ""
  {
    AgendaItem("", "", "", "", "", "", DefaultRole, "", "", false)
  }

  /** Submitting the blank form unedited fails on exactly the three required
      fields. */
  lemma EmptySpeakerIncomplete()
    ensures Validate(Submitted(EmptySpeaker())) == Rejected({"startTime", "endTime", "name"})
  {
  }

  /** The form on opening: the item carrying `editId` when editing and it is
      found, the blank form otherwise. */
  function InitialForm(agenda: Option<AgendaDoc>, editId: string): (r: AgendaItem)
    ensures editId != "" && agenda.Some? && FindById(agenda.value.items, editId).Some? ==>
      r in agenda.value.items && r.id == editId
    ensures editId != "" && agenda.Some? && FindById(agenda.value.items, editId).Some? ==>
      r == FindById(agenda.value.items, editId).value
    ensures editId == "" || agenda.None? || FindById(agenda.value.items, editId).None? ==> r == EmptySpeaker()
  {
    if editId != "" && agenda.Some? then FindById(agenda.value.items, editId).GetOr(EmptySpeaker())
    else EmptySpeaker()
  }

  /** The fields the form edits. */
  datatype Field = StartTime | EndTime | Name | Title | Company | Role | PhotoUrl | InfoImageUrl

  function GetField(it: AgendaItem, f: Field): string {
    match f
    case StartTime => it.startTime
    case EndTime => it.endTime
    case Name => it.name
    case Title => it.title
    case Company => it.company
    case Role => it.role
    case PhotoUrl => it.photoUrl
    case InfoImageUrl => it.infoImageUrl
  }

  /** `handleChange(field, value)`: the named field takes the value and
      nothing else changes. */
  function SetField(it: AgendaItem, f: Field, v: string): (r: AgendaItem)
    ensures GetField(r, f) == v
    ensures forall g :: g != f ==> GetField(r, g) == GetField(it, g)
    ensures r.id == it.id && r.isActive == it.isActive
  {
    match f
    case StartTime => it.(startTime := v)
    case EndTime => it.(endTime := v)
    case Name => it.(name := v)
    case Title => it.(title := v)
    case Company => it.(company := v)
    case Role => it.(role := v)
    case PhotoUrl => it.(photoUrl := v)
    case InfoImageUrl => it.(infoImageUrl := v)
  }

  /** An item is determined by its id, its flag and its form fields. */
  lemma FieldsDetermineItem(a: AgendaItem, b: AgendaItem)
    requires a.id == b.id && a.isActive == b.isActive
    requires forall g :: GetField(a, g) == GetField(b, g)
    ensures a == b
  {
    assert GetField(a, StartTime) == GetField(b, StartTime) && GetField(a, EndTime) == GetField(b, EndTime);
    assert GetField(a, Name) == GetField(b, Name) && GetField(a, Title) == GetField(b, Title);
    assert GetField(a, Company) == GetField(b, Company) && GetField(a, Role) == GetField(b, Role);
    assert GetField(a, PhotoUrl) == GetField(b, PhotoUrl) && GetField(a, InfoImageUrl) == GetField(b, InfoImageUrl);
  }

  /** Writing back a field's own value changes nothing. */
  lemma SetFieldRestores(it: AgendaItem, f: Field)
    ensures SetField(it, f, GetField(it, f)) == it
  {
    FieldsDetermineItem(SetField(it, f, GetField(it, f)), it);
  }

  /** A later write to a field overrides an earlier one. */
  lemma SetFieldOverrides(it: AgendaItem, f: Field, v: string, w: string)
    ensures SetField(SetField(it, f, v), f, w) == SetField(it, f, w)
  {
    FieldsDetermineItem(SetField(SetField(it, f, v), f, w), SetField(it, f, w));
  }

  /** Writes to different fields commute. */
  lemma SetFieldsCommute(it: AgendaItem, f: Field, g: Field, v: string, w: string)
    requires f != g
    ensures SetField(SetField(it, f, v), g, w) == SetField(SetField(it, g, w), f, v)
  {
    FieldsDetermineItem(SetField(SetField(it, f, v), g, w), SetField(SetField(it, g, w), f, v));
  }

  /** The items of the agenda being edited, none without an agenda. */
  function BaseItems(agenda: Option<AgendaDoc>): seq<AgendaItem> {
    if agenda.Some? then agenda.value.items else []
  }

  /** The item list `saveAgenda` sends: when editing, every item carrying
      `editId` is replaced by the form and the rest stay in place; when
      adding, the form is appended after the existing items. */
  function SaveItems(agenda: Option<AgendaDoc>, editId: string, form: AgendaItem): (r: seq<AgendaItem>)
    ensures var base := BaseItems(agenda);
      editId != "" ==> |r| == |base| && forall i :: 0 <= i < |r| ==> r[i] == if base[i].id == editId then form else base[i]
    ensures var base := BaseItems(agenda);
      editId == "" ==> |r| == |base| + 1 && r[..|base|] == base && r[|base|] == form
  {
    var base := BaseItems(agenda);
    if editId != "" then seq(|base|, i requires 0 <= i < |base| => if base[i].id == editId then form else base[i])
    else base + [form]
  }

  /** With unique ids, an edit replaces exactly the one item carrying the
      id, in its position. */
  lemma SaveReplacesOne(agenda: AgendaDoc, k: nat, form: AgendaItem)
    requires UniqueIds(agenda.items) && k < |agenda.items| && agenda.items[k].id != ""
    ensures SaveItems(Some(agenda), agenda.items[k].id, form) == agenda.items[k := form]
  {
  }

  /** Opening an item and saving it unedited sends the list back unchanged. */
  lemma UneditedSaveKeepsList(agenda: AgendaDoc, k: nat)
    requires UniqueIds(agenda.items) && k < |agenda.items| && agenda.items[k].id != ""
    ensures SaveItems(Some(agenda), agenda.items[k].id, InitialForm(Some(agenda), agenda.items[k].id)) == agenda.items
  {
    var id := agenda.items[k].id;
    var form := InitialForm(Some(agenda), id);
    assert agenda.items[k] in agenda.items;
    assert FindById(agenda.items, id).Some?;
    assert form in agenda.items && form.id == id;
    assert form == agenda.items[k];
    SaveReplacesOne(agenda, k, form);
  }

  /** Where the list goes: PUT to the agenda's own URL when it has an id,
      POST to the collection otherwise. */
  function SaveRequest(agenda: Option<AgendaDoc>, items: seq<AgendaItem>): (r: Request)
    ensures r.body == ItemsBody(items)
    ensures r.verb == PUT <==> agenda.Some? && agenda.value.id != ""
    ensures r.verb == PUT ==> r.url == "/api/agenda/" + agenda.value.id
    ensures r.verb != PUT ==> r.verb == POST && r.url == "/api/agenda"
  {
    if agenda.Some? && agenda.value.id != "" then Request(PUT, "/api/agenda/" + agenda.value.id, ItemsBody(items))
    else Request(POST, "/api/agenda", ItemsBody(items))
  }

  // ---------------------------------------------------------------------
  // An upload's completion.

  /** As written, the uploaded file's URL is written into the form as it was
      when the upload started. */
  function UploadCompleteAsWritten(atStart: AgendaItem, current: AgendaItem, f: Field, url: string): (r: AgendaItem)
    ensures GetField(r, f) == url
    ensures forall g :: g != f ==> GetField(r, g) == GetField(atStart, g)
  {
    SetField(atStart, f, url)
  }

  /** Corrected: the URL is written into the form as it is when the upload
      finishes, so edits made meanwhile survive. */
  function UploadComplete(current: AgendaItem, f: Field, url: string): (r: AgendaItem)
    ensures GetField(r, f) == url
    ensures forall g :: g != f ==> GetField(r, g) == GetField(current, g)
  {
    SetField(current, f, url)
  }

  /** A photo upload starts on the blank form, the name is typed while it
      runs, then it finishes: as written the typed name is lost, corrected it
      is kept. */
  lemma NameTypedDuringUploadIsLost()
    ensures var atStart := EmptySpeaker();
      var typed := SetField(atStart, Name, "Alice");
      && GetField(UploadCompleteAsWritten(atStart, typed, PhotoUrl, "p.png"), Name) == ""
      && GetField(UploadComplete(typed, PhotoUrl, "p.png"), Name) == "Alice"
  {
  }

  // ---------------------------------------------------------------------
  // The editor.

  /** The two upload fields. */
  predicate UploadField(f: Field) {
    f == PhotoUrl || f == InfoImageUrl
  }

  class AgendaEditor {
    const agenda: Option<AgendaDoc>
    const editId: string
    var form: AgendaItem
    var saving: bool
    var closed: bool
    var progress: map<Field, nat>

    /** Opening the editor on an agenda, to edit `editId` or to add. */
    constructor (agenda: Option<AgendaDoc>, editId: string)
      ensures this.agenda == agenda && this.editId == editId
      ensures form == InitialForm(agenda, editId) && !saving && !closed
      ensures progress == map[PhotoUrl := 0, InfoImageUrl := 0]
    {
      this.agenda := agenda;
      this.editId := editId;
      form := InitialForm(agenda, editId);
      saving := false;
      closed := false;
      progress := map[PhotoUrl := 0, InfoImageUrl := 0];
    }

    /** A field's input changed. */
    method HandleChange(f: Field, v: string)
      modifies this
      ensures form == SetField(old(form), f, v)
      ensures saving == old(saving) && closed == old(closed) && progress == old(progress)
    {
      form := SetField(form, f, v);
    }

    /** An upload starts: its progress restarts at zero. */
    method BeginUpload(f: Field)
      requires UploadField(f)
      modifies this
      ensures progress == old(progress)[f := 0] && form == old(form)
      ensures saving == old(saving) && closed == old(closed)
    {
      progress := progress[f := 0];
    }

    /** An upload ends: on success (`url` present) the URL goes into the form
      as it is now; success or not, the progress returns to zero. */
    method FinishUpload(f: Field, url: Option<string>)
      requires UploadField(f)
      modifies this
      ensures url.Some? ==> form == UploadComplete(old(form), f, url.value)
      ensures url.None? ==> form == old(form)
      ensures progress == old(progress)[f := 0]
      ensures saving == old(saving) && closed == old(closed)
    {
      if url.Some? {
        form := UploadComplete(form, f, url.value);
      }
      progress := progress[f := 0];
    }

    /** Save (disabled while saving): `saving` goes on and the request is
      issued. */
    method BeginSave() returns (req: Request)
      requires !saving
      modifies this
      ensures saving
      ensures req == SaveRequest(agenda, SaveItems(agenda, editId, form))
      ensures form == old(form) && closed == old(closed) && progress == old(progress)
    {
      saving := true;
      req := SaveRequest(agenda, SaveItems(agenda, editId, form));
    }

    /** The save's request settles: the editor closes if the request went
      through (whatever the status), and `saving` goes off either way. */
    method SaveSettled(delivered: bool)
      requires saving
      modifies this
      ensures !saving
      ensures closed == (old(closed) || delivered)
      ensures form == old(form) && progress == old(progress)
    {
      if delivered {
        closed := true;
      }
      saving := false;
    }

    /** Cancel (disabled while saving). */
    method Cancel()
      requires !saving
      modifies this
      ensures closed && form == old(form) && !saving && progress == old(progress)
    {
      closed := true;
    }
  }
}
