/**
 * The action tracker form: one `actions` row being created or edited, the ten
 * option lists its selects offer, the attachment upload, and the submit that
 * saves the row.
 */
module ActionForms {
  import opened Wrappers
  import opened Text
  import opened Backend
  import opened ActionItems

  const Table := "actions"
  const Bucket := "attachments"
  const UploadFolder := "actions/"

  /**
   * The empty form, as on first render and after a save without a parent
   * callback: raised today, status Open, every other column blank; there is
   * no contractor key and no id.
   */
  function DefaultAction(today: string): (a: ActionItem)
    ensures a.id.None?
    ensures forall f :: f in a.fields <==> f != Contractor
    ensures a.fields[DateRaised] == today && a.fields[Status] == "Open"
    ensures forall f :: f in a.fields && f != DateRaised && f != Status ==> a.fields[f] == ""
  {
    var a := ActionItem(None, map[
      DateRaised := today, RaisedBy := "", Source := "", Department := "",
      Responsibility := "", Discipline := "", Aspect := "", PlantArea := "",
      MainEquipment := "", Issue := "", ActionDetails := "", NextSteps := "",
      Constraints := "", Comments := "", Priority := "", Status := "Open",
      ProgressReport := "", TrainingAndAwareness := "", ActionStartDate := "",
      ActionCompletionDate := "", LearningPoints := "", AttachmentUrl := "",
      TrainingCompDate := "", TargetDate := ""]);
    // every field but the contractor has an entry
    assert forall f: ActionField :: f in a.fields || f == Contractor;
    a
  }

  /** A fresh form is in create mode: submitting it inserts. */
  lemma DefaultActionInserts(today: string)
    ensures SaveCall(Table, DefaultAction(today).id, DefaultAction(today)).Insert?
  {
  }

  // ---------------------------------------------------------------------------
  // Option lists

  /** The option lists of the selects, one per database enum. */
  datatype ActionEnums = ActionEnums(
    staff: seq<string>, priority: seq<string>, status: seq<string>, area: seq<string>,
    equipment: seq<string>, depts: seq<string>, disciplines: seq<string>,
    contractors: seq<string>, aspects: seq<string>, sources: seq<string>)

  function NoEnums(): ActionEnums
  {
    ActionEnums([], [], [], [], [], [], [], [], [], [])
  }

  /** The enums fetched, in the order they are requested. */
  const EnumNames: seq<string> := [
    "staff_name", "priority_level", "action_status", "plant_area_type", "equipment_type",
    "dept_name", "discipline_type", "contractor_name", "aspect_type", "source_type"]

  /** The requests that fetch the enums named in `names`, in order. */
  function RpcRequests(names: seq<string>): (r: seq<Effect<ActionItem>>)
    ensures |r| == |names|
    ensures forall i :: 0 <= i < |names| ==> r[i] == Request(Rpc(names[i]))
  {
    if names == [] then [] else [Request(Rpc(names[0]))] + RpcRequests(names[1..])
  }

  /**
   * The option lists after the enums are fetched: each list is its enum's values
   * as `rpc` answers them, and empty when the answer is null.
   */
  function EnumsFrom(rpc: string -> Option<seq<string>>): (e: ActionEnums)
    ensures e.staff == OrEmpty(rpc("staff_name")) && e.priority == OrEmpty(rpc("priority_level"))
    ensures e.status == OrEmpty(rpc("action_status")) && e.area == OrEmpty(rpc("plant_area_type"))
    ensures e.equipment == OrEmpty(rpc("equipment_type")) && e.depts == OrEmpty(rpc("dept_name"))
    ensures e.disciplines == OrEmpty(rpc("discipline_type"))
    ensures e.contractors == OrEmpty(rpc("contractor_name"))
    ensures e.aspects == OrEmpty(rpc("aspect_type")) && e.sources == OrEmpty(rpc("source_type"))
  {
    ActionEnums(
      OrEmpty(rpc(EnumNames[0])), OrEmpty(rpc(EnumNames[1])), OrEmpty(rpc(EnumNames[2])),
      OrEmpty(rpc(EnumNames[3])), OrEmpty(rpc(EnumNames[4])), OrEmpty(rpc(EnumNames[5])),
      OrEmpty(rpc(EnumNames[6])), OrEmpty(rpc(EnumNames[7])), OrEmpty(rpc(EnumNames[8])),
      OrEmpty(rpc(EnumNames[9])))
  }

  /** A backend that answers every enum with null leaves every list empty. */
  lemma NullAnswersGiveNoOptions(rpc: string -> Option<seq<string>>)
    requires forall n :: n in EnumNames ==> rpc(n).None?
    ensures EnumsFrom(rpc) == NoEnums()
  {
    assert rpc(EnumNames[0]).None? && rpc(EnumNames[1]).None? && rpc(EnumNames[2]).None?;
    assert rpc(EnumNames[3]).None? && rpc(EnumNames[4]).None? && rpc(EnumNames[5]).None?;
    assert rpc(EnumNames[6]).None? && rpc(EnumNames[7]).None? && rpc(EnumNames[8]).None?;
    assert rpc(EnumNames[9]).None?;
  }

  // ---------------------------------------------------------------------------
  // Upload path

  /** The store path of an uploaded file: `actions/<random>.<ext>`, `ext` being `name.split('.').pop()`. */
  function UploadPath(random: string, name: string): string
  {
    UploadFolder + random + "." + LastDotSegment(name)
  }

  /**
   * The path is the folder, the random text and a '.', followed by the text
   * after the last '.' of the file name, or the whole name when it has none.
   */
  lemma UploadPathShape(random: string, name: string)
    ensures var p := UploadPath(random, name);
      && |p| >= |UploadFolder| + |random| + 1
      && p[..|UploadFolder| + |random| + 1] == UploadFolder + random + "."
      && var ext := p[|UploadFolder| + |random| + 1..];
        && '.' !in ext
        && |ext| <= |name| && ext == name[|name| - |ext|..]
        && (ext == name <==> '.' !in name)
        && (ext != name ==> name[|name| - |ext| - 1] == '.')
  {
    var prefix := UploadFolder + random + ".";
    var ext := LastDotSegment(name);
    assert UploadPath(random, name) == prefix + ext;
    assert (prefix + ext)[..|prefix|] == prefix;
    assert (prefix + ext)[|prefix|..] == ext;
  }

  /** A file name without a '.' is used whole as the extension. */
  lemma UploadPathWithoutDot(random: string, name: string)
    requires '.' !in name
    ensures UploadPath(random, name) == UploadFolder + random + "." + name
  {
    UploadPathShape(random, name);
    var p := UploadPath(random, name);
    var k := |UploadFolder| + |random| + 1;
    assert p == p[..k] + p[k..];
  }

  // ---------------------------------------------------------------------------
  // The component

  class ActionTrackerForm {
    /** Whether the parent passed an `onComplete` callback. */
    const hasOnComplete: bool
    var formData: ActionItem
    var enums: ActionEnums
    var loading: bool
    var uploading: bool
    /** The backend requests issued so far, with the busy flags' changes and callback invocations. */
    ghost var trace: seq<Effect<ActionItem>>

    /** The form as first rendered; `today` is the current date as `YYYY-MM-DD`. */
    constructor(today: string, hasOnComplete: bool)
      ensures this.hasOnComplete == hasOnComplete
      ensures formData == DefaultAction(today) && enums == NoEnums()
      ensures !loading && !uploading && trace == []
    {
      this.hasOnComplete := hasOnComplete;
      formData := DefaultAction(today);
      enums := NoEnums();
      loading, uploading := false, false;
      trace := [];
    }

    /** The `initialData` effect: a record handed in replaces the whole form; none leaves it. */
    method ReceiveInitialData(initialData: Option<ActionItem>)
      modifies this
      ensures initialData.Some? ==> formData == initialData.value
      ensures initialData.None? ==> formData == old(formData)
      ensures enums == old(enums) && loading == old(loading) && uploading == old(uploading)
      ensures trace == old(trace)
    {
      if initialData.Some? {
        formData := initialData.value;
      }
    }

    /** The mount effect: fetches the ten enums in turn; `rpc` is the backend's answer per enum. */
    method FetchAllEnums(rpc: string -> Option<seq<string>>)
      modifies this
      ensures enums == EnumsFrom(rpc)
      ensures formData == old(formData) && loading == old(loading) && uploading == old(uploading)
      ensures trace == old(trace) + RpcRequests(EnumNames)
    {
      trace := trace + RpcRequests(EnumNames);
      enums := EnumsFrom(rpc);
    }

    /** An input or select of the form; there is no input for the date raised. */
    method SetField(f: ActionField, value: string)
      requires f != DateRaised
      modifies this
      ensures formData.id == old(formData.id)
      ensures f in formData.fields && formData.fields[f] == value
      ensures forall g :: g != f ==> Get(formData.fields, g) == Get(old(formData.fields), g)
      ensures enums == old(enums) && loading == old(loading) && uploading == old(uploading)
      ensures trace == old(trace)
    {
      formData := formData.(fields := formData.fields[f := value]);
    }

    /**
     * The file input. `file` is the chosen file's name (none when nothing was
     * chosen), `random` the text of `Math.random()`, `uploadError` the store's
     * answer and `publicUrl` the store's public URL for a path.
     */
    method HandleFileUpload(file: Option<string>, random: string, uploadError: Option<string>,
                            publicUrl: string -> string)
      modifies this
      ensures !uploading
      ensures file.None? ==> formData == old(formData) && trace == old(trace) + [Uploading(true), Uploading(false)]
      ensures file.Some? ==>
        trace == old(trace) + [Uploading(true), Request(Upload(Bucket, UploadPath(random, file.value))), Uploading(false)]
      ensures file.Some? && uploadError.Some? ==> formData == old(formData)
      ensures file.Some? && uploadError.None? ==>
        && formData.id == old(formData.id)
        && formData.fields == old(formData.fields)[AttachmentUrl := publicUrl(UploadPath(random, file.value))]
      ensures enums == old(enums) && loading == old(loading)
    {
      uploading := true;
      if file.Some? {
        var filePath := UploadPath(random, file.value);
        if uploadError.None? {
          formData := formData.(fields := formData.fields[AttachmentUrl := publicUrl(filePath)]);
        }
        // The finally block clears the flag on every path.
        uploading := false;
        trace := trace + [Uploading(true), Request(Upload(Bucket, filePath)), Uploading(false)];
      } else {
        uploading := false;
        trace := trace + [Uploading(true), Uploading(false)];
      }
    }

    /**
     * Saves the form: an update of the row with the form's id when it has one,
     * an insert otherwise. `error` is the backend's answer; `today` is the date
     * used if the form is reset.
     */
    method HandleSubmit(error: Option<string>, today: string)
      modifies this
      ensures !loading
      ensures var call := SaveCall(Table, old(formData.id), old(formData));
        trace == old(trace) + [Loading(true), Request(call)]
                 + (if error.None? && hasOnComplete then [CallbackInvoked] else [])
                 + [Loading(false)]
      ensures error.Some? ==> formData == old(formData)
      ensures error.None? && hasOnComplete ==> formData == old(formData)
      ensures error.None? && !hasOnComplete ==> formData == DefaultAction(today)
      ensures enums == old(enums) && uploading == old(uploading)
    {
      loading := true;
      var call := SaveCall(Table, formData.id, formData);
      trace := trace + [Loading(true), Request(call)];
      if error.None? {
        if hasOnComplete {
          trace := trace + [CallbackInvoked];
        } else {
          formData := DefaultAction(today);
        }
      }
      loading := false;
      trace := trace + [Loading(false)];
    }
  }
}
