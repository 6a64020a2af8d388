/**
 * The generic admin `EntityForm`: the form state it starts from, single-field
 * edits, the per-field upload flag, and submission.
 */
module EntityForm {
  import opened Wrappers
  import opened JsValue
  import Base44Client

  /** A form field description; an absent `defaultValue` is `Undefined`. */
  datatype Field = Field(name: string, defaultValue: Value)

  /**
   * The object `fields.forEach(...)` builds: each field with a defined
   * default, in field order, so a later field of the same name wins.
   */
  function DefaultsOf(fields: seq<Field>): Record
    decreases |fields|
  {
    if fields == [] then map[]
    else
      var d := DefaultsOf(fields[..|fields| - 1]);
      var f := fields[|fields| - 1];
      if f.defaultValue != Undefined then d[f.name := f.defaultValue] else d
  }

  /** The field at `i` sets its name's default, and no later field sets that name again. */
  predicate LastDefault(fields: seq<Field>, i: int) {
    0 <= i < |fields| && fields[i].defaultValue != Undefined
    && forall j :: i < j < |fields| ==> fields[j].name != fields[i].name || fields[j].defaultValue == Undefined
  }

  /** A field at `i` with that name and a defined default. */
  predicate SetsDefault(fields: seq<Field>, i: int, k: string) {
    0 <= i < |fields| && fields[i].name == k && fields[i].defaultValue != Undefined
  }

  /** The defaults hold exactly the names of fields with a defined default (`null` included). */
  lemma {:induction false} DefaultsKeys(fields: seq<Field>)
    ensures forall k :: k in DefaultsOf(fields) <==> exists i :: SetsDefault(fields, i, k)
    decreases |fields|
  {
    if fields != [] {
      var init := fields[..|fields| - 1];
      DefaultsKeys(init);
      var last := |fields| - 1;
      forall k ensures k in DefaultsOf(fields) <==> exists i :: SetsDefault(fields, i, k) {
        if k !in DefaultsOf(init) && k in DefaultsOf(fields) {
          assert SetsDefault(fields, last, k);
        }
        if k in DefaultsOf(init) {
          var i :| SetsDefault(init, i, k);
          assert SetsDefault(fields, i, k);
        }
        if exists i :: SetsDefault(fields, i, k) {
          var i :| SetsDefault(fields, i, k);
          if i < |init| {
            assert SetsDefault(init, i, k);
          }
        }
      }
    }
  }

  /** Each name holds the default of the last field that sets it. */
  lemma {:induction false} DefaultsValues(fields: seq<Field>)
    ensures forall i :: LastDefault(fields, i) ==>
      fields[i].name in DefaultsOf(fields) && DefaultsOf(fields)[fields[i].name] == fields[i].defaultValue
    decreases |fields|
  {
    if fields != [] {
      var init := fields[..|fields| - 1];
      DefaultsValues(init);
      forall i | LastDefault(fields, i)
        ensures fields[i].name in DefaultsOf(fields) && DefaultsOf(fields)[fields[i].name] == fields[i].defaultValue
      {
        if i < |init| {
          assert init[i] == fields[i];
          assert LastDefault(init, i);
        }
      }
    }
  }

  /** The `forEach` loop that fills `defaults`. */
  method BuildDefaults(fields: seq<Field>) returns (defaults: Record)
    ensures defaults == DefaultsOf(fields)
  {
    defaults := map[];
    var i := 0;
    while i < |fields|
      invariant 0 <= i <= |fields|
      invariant defaults == DefaultsOf(fields[..i])
    {
      var field := fields[i];
      assert fields[..i + 1][..i] == fields[..i];
      if field.defaultValue != Undefined {
        defaults := defaults[field.name := field.defaultValue];
      }
      i := i + 1;
    }
    assert fields[..i] == fields;
  }

  /** `{ ...prev, [name]: value }`. */
  function WithField(prev: Record, name: string, value: Value): (r: Record)
    ensures name in r && r[name] == value
    ensures forall k :: k != name ==> (k in r <==> k in prev) && (k in prev ==> r[k] == prev[k])
  {
    prev[name := value]
  }

  /** Writing the same field twice keeps only the second value. */
  lemma WithFieldOverwrites(prev: Record, name: string, a: Value, b: Value)
    ensures WithField(WithField(prev, name, a), name, b) == WithField(prev, name, b)
  {
  }

  /** Edits to different fields commute. */
  lemma WithFieldCommutes(prev: Record, m: string, n: string, a: Value, b: Value)
    requires m != n
    ensures WithField(WithField(prev, m, a), n, b) == WithField(WithField(prev, n, b), m, a)
  {
    var x, y := WithField(WithField(prev, m, a), n, b), WithField(WithField(prev, n, b), m, a);
    assert x.Keys == y.Keys;
    forall k | k in x ensures x[k] == y[k] {
    }
  }

  /** The component's state: `formData` and the per-field `uploading` flags. */
  class Form {
    var formData: Record
    var uploading: map<string, bool>

    constructor ()
      ensures formData == map[] && uploading == map[]
    {
      formData := map[];
      uploading := map[];
    }

    /** The effect run when the form opens or its inputs change. */
    method Reset(initialData: Option<Record>, fields: seq<Field>)
      modifies this
      ensures formData == (if initialData.Some? then initialData.value else DefaultsOf(fields))
      ensures uploading == old(uploading)
    {
      if initialData.Some? {
        formData := initialData.value;
      } else {
        var defaults := BuildDefaults(fields);
        formData := defaults;
      }
    }

    /** `handleChange(name, value)`. */
    method HandleChange(name: string, value: Value)
      modifies this
      ensures formData == WithField(old(formData), name, value)
      ensures uploading == old(uploading)
    {
      formData := WithField(formData, name, value);
    }

    /**
     * The synchronous part of `handleUpload`: nothing happens without a
     * file; otherwise the field is flagged as uploading.
     */
    method StartUpload(field: string, hasFile: bool)
      modifies this
      ensures formData == old(formData)
      ensures hasFile ==> uploading == old(uploading)[field := true]
      ensures !hasFile ==> uploading == old(uploading)
    {
      if hasFile {
        uploading := uploading[field := true];
      }
    }

    /**
     * The part after the upload settles: on success (`Some(file_url)`) the
     * address is stored under the field; in either case the flag is cleared.
     */
    method FinishUpload(field: string, fileUrl: Option<Value>)
      modifies this
      ensures fileUrl.Some? ==> formData == WithField(old(formData), field, fileUrl.value)
      ensures fileUrl.None? ==> formData == old(formData)
      ensures uploading == old(uploading)[field := false]
    {
      if fileUrl.Some? {
        HandleChange(field, fileUrl.value);
      }
      uploading := uploading[field := false];
    }

    /** `handleSubmit`: what `onSave` receives. */
    method Submit() returns (saved: Record)
      ensures saved == formData
    {
      saved := formData;
    }
  }

  /**
   * A whole upload with a file: the flag is set while it runs, cleared when
   * it settles, and a successful upload's address lands in the form.
   */
  method UploadRun(form: Form, field: string, fileUrl: Option<Value>) returns (during: bool)
    modifies form
    ensures during
    ensures form.uploading == old(form.uploading)[field := false]
    ensures fileUrl.Some? ==> form.formData == old(form.formData)[field := fileUrl.value]
    ensures fileUrl.None? ==> form.formData == old(form.formData)
  {
    form.StartUpload(field, true);
    during := form.uploading[field];
    form.FinishUpload(field, fileUrl);
  }

  /**
   * What `await base44.integrations.Core.UploadFile({ file })` settles to,
   * given what the upload service would reply: the reply when the client has
   * an `integrations` member, else a failure, since reading `.Core` of
   * `undefined` throws inside the `try`.
   */
  function UploadOutcome(reply: Option<Value>): (r: Option<Value>)
    ensures "integrations" in Base44Client.ClientMembers ==> r == reply
    ensures "integrations" !in Base44Client.ClientMembers ==> r.None?
  {
    if "integrations" in Base44Client.ClientMembers then reply else None
  }

  /** As written, every upload fails, whatever the upload service would reply. */
  lemma UploadAsWrittenAlwaysFails(reply: Option<Value>)
    ensures UploadOutcome(reply) == None
  {
  }

  /**
   * As written, with the client as it is: whatever the upload service would
   * reply, the upload fails, the form data is never changed and only the flag
   * goes up and down.
   */
  method UploadRunAsWritten(form: Form, field: string, reply: Option<Value>) returns (during: bool)
    modifies form
    ensures during
    ensures form.uploading == old(form.uploading)[field := false]
    ensures form.formData == old(form.formData)
  {
    var outcome := UploadOutcome(reply);
    during := UploadRun(form, field, outcome);
  }

  /** A form opened on existing data submits that data when nothing is edited. */
  method OpenAndSubmit(initialData: Record, fields: seq<Field>) returns (saved: Record)
    ensures saved == initialData
  {
    var form := new Form();
    form.Reset(Some(initialData), fields);
    saved := form.Submit();
  }
}
