/**
 * The admin console: four "new item" forms and the church record, the
 * payload each save sends, the resets after a successful save, and the
 * shared upload flag. Database and storage calls are parameters: the model
 * receives whether the insert failed and what the upload produced.
 */
module AdminConsole {
  import opened Wrappers
  import opened JsString
  import opened JsValue

  const InitialEvent: Record := map[
    "title" := Str(""), "description" := Str(""), "date" := Str(""), "end_date" := Str(""),
    "start_time" := Str(""), "end_time" := Str(""), "location" := Str(""), "event_type" := Str(""),
    "is_recurring" := Bool(false), "recurrence_day" := Str("sunday"), "is_active" := Bool(true)]

  const InitialNews: Record := map[
    "title" := Str(""), "summary" := Str(""), "content" := Str(""), "author" := Str(""),
    "category" := Str("noticia"), "image_url" := Str(""), "is_highlighted" := Bool(false),
    "is_published" := Bool(true)]

  const InitialLeader: Record := map[
    "name" := Str(""), "role" := Str(""), "leader_type" := Str("lider_departamento"),
    "bio" := Str(""), "photo_url" := Str(""), "whatsapp" := Str(""), "phone" := Str(""),
    "email" := Str(""), "order" := Num(0)]

  const InitialCongregation: Record := map[
    "name" := Str(""), "address" := Str(""), "neighborhood" := Str(""), "photo_url" := Str(""),
    "pastor_name" := Str(""), "pastor_phone" := Str(""), "service_times" := Str(""),
    "latitude" := Str(""), "longitude" := Str(""), "is_active" := Bool(true)]

  /** A new event starts as a one-off, weekly day preset to Sunday, active. */
  lemma InitialEventForm()
    ensures Get(InitialEvent, "is_recurring") == Bool(false)
    ensures Get(InitialEvent, "recurrence_day") == Str("sunday")
    ensures Get(InitialEvent, "is_active") == Bool(true)
    ensures !Truthy(Get(InitialEvent, "end_date"))
  {
  }

  /**
   * `{ ...newEvent }` with `end_date` deleted when it is falsy: the row
   * `saveEvent` inserts.
   */
  function EventPayload(form: Record): (payload: Record)
    ensures "end_date" in payload <==> Truthy(Get(form, "end_date"))
    ensures "end_date" in payload ==> payload["end_date"] == form["end_date"]
    ensures forall k :: k != "end_date" ==> (k in payload <==> k in form) && (k in form ==> payload[k] == form[k])
  {
    if !Truthy(Get(form, "end_date")) then form - {"end_date"} else form
  }

  /** An untouched new-event form is saved without an `end_date` column. */
  lemma InitialPayloadOmitsEndDate()
    ensures "end_date" !in EventPayload(InitialEvent)
    ensures "title" in EventPayload(InitialEvent)
  {
    InitialEventForm();
  }

  /** `{ ...form, k1: '', k2: '' }` for the listed keys. */
  function Cleared(form: Record, keys: seq<string>): (r: Record)
    ensures forall k :: k in keys ==> k in r && r[k] == Str("")
    ensures forall k :: k !in keys ==> (k in r <==> k in form) && (k in form ==> r[k] == form[k])
    decreases |keys|
  {
    if keys == [] then form else Cleared(form, keys[..|keys| - 1])[keys[|keys| - 1] := Str("")]
  }

  datatype FormKind = ChurchForm | EventForm | NewsForm | LeaderForm | CongregationForm

  /** The fields each form clears after a successful insert; the church record is never cleared. */
  function ResetKeys(kind: FormKind): seq<string> {
    match kind
    case ChurchForm => []
    case EventForm => ["title", "description"]
    case NewsForm => ["title", "summary"]
    case LeaderForm => ["name", "role"]
    case CongregationForm => ["name", "address"]
  }

  /** Where an upload's public address is stored. */
  datatype UploadTarget = Banner | PixQrCode | NewsImage | LeaderPhoto

  function TargetForm(t: UploadTarget): FormKind {
    match t
    case Banner => ChurchForm
    case PixQrCode => ChurchForm
    case NewsImage => NewsForm
    case LeaderPhoto => LeaderForm
  }

  function TargetField(t: UploadTarget): string {
    match t
    case Banner => "banner_url"
    case PixQrCode => "pix_qrcode_url"
    case NewsImage => "image_url"
    case LeaderPhoto => "photo_url"
  }

  /** The form state after an upload to `field` of `current` succeeded. */
  function UploadedInto(current: Record, field: string, url: string): (r: Record)
    ensures field in r && r[field] == Str(url)
    ensures forall k :: k != field ==> (k in r <==> k in current) && (k in current ==> r[k] == current[k])
  {
    current[field := Str(url)]
  }

  /**
   * The upload callbacks as written, `setNewNews({ ...newNews, image_url: url })`:
   * the spread reads the form as it was rendered when the file was picked.
   */
  function UploadedIntoAsWritten(snapshot: Record, current: Record, field: string, url: string): Record {
    snapshot[field := Str(url)]
  }

  /** A field edited while the upload was in flight loses the edit when the upload lands. */
  lemma UploadAsWrittenLosesEdit(snapshot: Record, field: string, url: string, key: string, typed: Value)
    requires key != field && key in snapshot && snapshot[key] != typed
    ensures var current := snapshot[key := typed];
      UploadedIntoAsWritten(snapshot, current, field, url)[key] != current[key]
      && UploadedInto(current, field, url)[key] == typed
  {
  }

  /** `file.name.split('.').pop()`. */
  function FileExtension(name: string): string {
    var parts := Split(name, '.');
    parts[|parts| - 1]
  }

  /**
   * The extension is the text after the last `.` of the name, and the
   * whole name when it has no `.`.
   */
  lemma FileExtensionSpec(name: string)
    ensures var ext := FileExtension(name);
      && '.' !in ext && |ext| <= |name| && name[|name| - |ext|..] == ext
      && ('.' !in name ==> ext == name)
      && ('.' in name ==> |ext| < |name| && name[|name| - |ext| - 1] == '.')
  {
    var parts := Split(name, '.');
    var ext := parts[|parts| - 1];
    SplitJoin(name, '.');
    if |parts| == 1 {
      assert name == parts[0];
    } else {
      JoinLast(parts, '.');
      var front := Join(parts[..|parts| - 1], '.');
      assert name == front + ['.'] + ext;
      assert name[|name| - |ext|..] == ext;
      assert name[|name| - |ext| - 1] == '.';
    }
  }

  lemma {:induction false} JoinLast(parts: seq<string>, sep: char)
    requires |parts| >= 2
    ensures Join(parts, sep) == Join(parts[..|parts| - 1], sep) + [sep] + parts[|parts| - 1]
    decreases |parts|
  {
    if |parts| > 2 {
      JoinLast(parts[1..], sep);
      assert parts[1..][..|parts| - 2] == parts[..|parts| - 1][1..];
    }
  }

  /** A value inside a template literal. */
  function TemplateText(v: Value): string {
    match v
    case Undefined => "undefined"
    case Null => "null"
    case Bool(b) => if b then "true" else "false"
    case Num(n) => IntToString(n)
    case Str(s) => s
  }

  /** A value rendered as a React child: `null`, `undefined` and booleans render nothing. */
  function ChildText(v: Value): string {
    match v
    case Num(n) => IntToString(n)
    case Str(s) => s
    case _ => ""
  }

  const EveryPrefix := "Todo(a) "

  /** The second line of each event in the admin list. */
  function EventListLabel(ev: Record): (text: string)
    ensures Truthy(Get(ev, "is_recurring")) ==>
      |text| >= |EveryPrefix| && text[..|EveryPrefix|] == EveryPrefix
      && text[|EveryPrefix|..] == TemplateText(Get(ev, "recurrence_day"))
    ensures !Truthy(Get(ev, "is_recurring")) && Get(ev, "date").Str? ==> text == Get(ev, "date").s
    ensures !Truthy(Get(ev, "is_recurring")) && Get(ev, "date").Num? ==> text == IntToString(Get(ev, "date").n)
    ensures !Truthy(Get(ev, "is_recurring")) && (Get(ev, "date").Null? || Get(ev, "date").Undefined? || Get(ev, "date").Bool?) ==> text == ""
  {
    if Truthy(Get(ev, "is_recurring")) then
      var text := EveryPrefix + TemplateText(Get(ev, "recurrence_day"));
      assert text[..|EveryPrefix|] == EveryPrefix;
      text
    else ChildText(Get(ev, "date"))
  }

  /** The console's form state. */
  class Console {
    var churchInfo: Record
    var newEvent: Record
    var newNews: Record
    var newLeader: Record
    var newCongregation: Record
    var uploading: bool

    constructor ()
      ensures churchInfo == map[] && newEvent == InitialEvent && newNews == InitialNews
      ensures newLeader == InitialLeader && newCongregation == InitialCongregation
      ensures !uploading
    {
      churchInfo := map[];
      newEvent := InitialEvent;
      newNews := InitialNews;
      newLeader := InitialLeader;
      newCongregation := InitialCongregation;
      uploading := false;
    }

    function FormOf(kind: FormKind): Record
      reads this
    {
      match kind
      case ChurchForm => churchInfo
      case EventForm => newEvent
      case NewsForm => newNews
      case LeaderForm => newLeader
      case CongregationForm => newCongregation
    }

    /** Replace one form, leaving the other forms and the upload flag alone. */
    method SetForm(kind: FormKind, r: Record)
      modifies this
      ensures FormOf(kind) == r
      ensures forall k :: k != kind ==> FormOf(k) == old(FormOf(k))
      ensures uploading == old(uploading)
    {
      match kind
      case ChurchForm => churchInfo := r;
      case EventForm => newEvent := r;
      case NewsForm => newNews := r;
      case LeaderForm => newLeader := r;
      case CongregationForm => newCongregation := r;
    }

    /** An input's `onChange`: `setX({ ...x, [key]: value })`. */
    method Edit(kind: FormKind, key: string, value: Value)
      modifies this
      ensures FormOf(kind) == old(FormOf(kind))[key := value]
      ensures forall k :: k != kind ==> FormOf(k) == old(FormOf(k))
      ensures uploading == old(uploading)
    {
      SetForm(kind, FormOf(kind)[key := value]);
    }

    /** The row a save sends: the event payload for events, the form itself otherwise. */
    method Payload(kind: FormKind) returns (payload: Record)
      ensures payload == if kind == EventForm then EventPayload(newEvent) else FormOf(kind)
    {
      if kind == EventForm {
        payload := EventPayload(newEvent);
      } else {
        payload := FormOf(kind);
      }
    }

    /**
     * The church-record part of `fetchData`: when the reload returns a row
     * (`Some`), it replaces the church form, unsaved edits included; otherwise
     * the form is kept. The lists it reloads are not part of this state.
     */
    method Reload(info: Option<Record>)
      modifies this
      ensures churchInfo == if info.Some? then info.value else old(churchInfo)
      ensures forall k :: k != ChurchForm ==> FormOf(k) == old(FormOf(k))
      ensures uploading == old(uploading)
    {
      if info.Some? {
        SetForm(ChurchForm, info.value);
      }
    }

    /**
     * The reply to a save: on success the form's reset keys are cleared and
     * every other field keeps its value; on an error nothing changes. A
     * successful insert (every form but the church one) also runs `fetchData`,
     * whose church row `reloaded` then replaces the church form.
     */
    method Saved(kind: FormKind, failed: bool, reloaded: Option<Record>)
      modifies this
      ensures failed ==> FormOf(kind) == old(FormOf(kind))
      ensures !failed ==> FormOf(kind) == Cleared(old(FormOf(kind)), ResetKeys(kind))
      ensures kind != ChurchForm ==>
        churchInfo == if !failed && reloaded.Some? then reloaded.value else old(churchInfo)
      ensures forall k :: k != kind && k != ChurchForm ==> FormOf(k) == old(FormOf(k))
      ensures uploading == old(uploading)
    {
      if !failed {
        SetForm(kind, Cleared(FormOf(kind), ResetKeys(kind)));
        if kind != ChurchForm {
          assert churchInfo == FormOf(ChurchForm) == old(FormOf(ChurchForm));
          Reload(reloaded);
        }
      }
    }

    /** `handleUpload` before the await: no file, nothing happens; a file raises the flag. */
    method StartUpload(hasFile: bool)
      modifies this
      ensures uploading == (old(uploading) || hasFile)
      ensures forall k :: FormOf(k) == old(FormOf(k))
    {
      if hasFile {
        uploading := true;
      }
    }

    /**
     * `handleUpload` after the storage reply: a public address (`Some`) is
     * stored in the target field; on failure the forms are untouched; the
     * flag is lowered either way.
     */
    method FinishUpload(target: UploadTarget, url: Option<string>)
      modifies this
      ensures url.Some? ==> FormOf(TargetForm(target)) == UploadedInto(old(FormOf(TargetForm(target))), TargetField(target), url.value)
      ensures url.None? ==> FormOf(TargetForm(target)) == old(FormOf(TargetForm(target)))
      ensures forall k :: k != TargetForm(target) ==> FormOf(k) == old(FormOf(k))
      ensures !uploading
    {
      if url.Some? {
        var kind := TargetForm(target);
        SetForm(kind, UploadedInto(FormOf(kind), TargetField(target), url.value));
      }
      uploading := false;
    }
  }

  /** A successful event save from a fresh console keeps the preset day and clears the title. */
  method SaveFirstEvent(title: string) returns (payload: Record, after: Record)
    ensures Get(payload, "title") == Str(title) && "end_date" !in payload
    ensures Get(after, "title") == Str("") && Get(after, "recurrence_day") == Str("sunday")
  {
    InitialEventForm();
    var console := new Console();
    console.Edit(EventForm, "title", Str(title));
    ghost var edited := console.newEvent;
    assert Get(edited, "title") == Str(title);
    assert Get(edited, "end_date") == Get(InitialEvent, "end_date");
    assert Get(edited, "recurrence_day") == Str("sunday");
    payload := console.Payload(EventForm);
    console.Saved(EventForm, false, None);
    after := console.newEvent;
    assert "title" in ResetKeys(EventForm) && "recurrence_day" !in ResetKeys(EventForm);
  }
}
