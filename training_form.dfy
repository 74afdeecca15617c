/**
 * The training form: one new `training` row, the four option lists of its
 * selects, the field setters and the submit that inserts the row and then
 * clears the topic, the overview and the completion box for the next entry.
 */
module TrainingForms {
  import opened Wrappers
  import opened Backend
  import opened TrainingRecords

  const Table := "training"

  /** The empty form: every text blank and the completion box clear. */
  function DefaultTraining(): (r: TrainingRecord)
    ensures r.id.None? && !r.isCompleted
    ensures forall f: TrainingField :: f in r.text && r.text[f] == ""
  {
    var r := TrainingRecord(
      None,
      map[TraineeName := "", Trainer := "", TrainingTopic := "", TrainingAspect := "",
          TrainingMethod := "", CompetencyTestType := "", TrainingOverview := ""],
      false);
    // the map has an entry for every field
    assert forall f: TrainingField :: f.TraineeName? || f in r.text;
    r
  }

  /** The fields a save keeps for the next entry: the people and the kind of training. */
  predicate KeptAfterSave(f: TrainingField)
  {
    f != TrainingTopic && f != TrainingOverview
  }

  /** The form after a successful save: topic and overview blank, box clear, the rest as it was. */
  function AfterSave(r: TrainingRecord): TrainingRecord
  {
    r.(text := r.text[TrainingTopic := ""][TrainingOverview := ""], isCompleted := false)
  }

  /**
   * A save blanks the topic and the overview, clears the box, and keeps the
   * id, the trainee, the trainer, the aspect, the method and the test type.
   */
  lemma AfterSaveKeeps(r: TrainingRecord)
    ensures var s := AfterSave(r);
      && s.id == r.id && !s.isCompleted
      && TrainingTopic in s.text && s.text[TrainingTopic] == ""
      && TrainingOverview in s.text && s.text[TrainingOverview] == ""
      && forall f :: KeptAfterSave(f) ==> Get(s.text, f) == Get(r.text, f)
  {
  }

  /** Saving again straight after a save leaves the form as the first save left it. */
  lemma AfterSaveIdempotent(r: TrainingRecord)
    ensures AfterSave(AfterSave(r)) == AfterSave(r)
  {
    var s := AfterSave(r);
    assert AfterSave(s).text == s.text;
  }

  /** The empty form is unchanged by a save. */
  lemma DefaultTrainingSurvivesSave()
    ensures AfterSave(DefaultTraining()) == DefaultTraining()
  {
    var d := DefaultTraining();
    assert AfterSave(d).text == d.text;
  }

  /** The option lists of the selects. */
  datatype TrainingLists = TrainingLists(
    staff: seq<string>, aspects: seq<string>, methods: seq<string>, tests: seq<string>)

  class TrainingForm {
    var formData: TrainingRecord
    var lists: TrainingLists
    var loading: bool
    /** The backend requests issued so far, with the loading flag's changes. */
    ghost var trace: seq<Effect<TrainingRecord>>

    constructor()
      ensures formData == DefaultTraining()
      ensures lists == TrainingLists([], [], [], [])
      ensures !loading && trace == []
    {
      formData := DefaultTraining();
      lists := TrainingLists([], [], [], []);
      loading := false;
      trace := [];
    }

    /**
     * The mount effect: fetches the four enums in turn; `rpc` is the backend's
     * answer per enum. Each list is its answer, or empty when the answer is null.
     */
    method LoadLists(rpc: string -> Option<seq<string>>)
      modifies this
      ensures lists.staff == OrEmpty(rpc("staff_name"))
      ensures lists.aspects == OrEmpty(rpc("training_aspect_type"))
      ensures lists.methods == OrEmpty(rpc("training_method_type"))
      ensures lists.tests == OrEmpty(rpc("test_type"))
      ensures formData == old(formData) && loading == old(loading)
      ensures trace == old(trace) + [Request(Rpc("staff_name")), Request(Rpc("training_aspect_type")),
                                     Request(Rpc("training_method_type")), Request(Rpc("test_type"))]
    {
      var staff := rpc("staff_name");
      var aspects := rpc("training_aspect_type");
      var methods := rpc("training_method_type");
      var tests := rpc("test_type");
      trace := trace + [Request(Rpc("staff_name")), Request(Rpc("training_aspect_type")),
                        Request(Rpc("training_method_type")), Request(Rpc("test_type"))];
      lists := TrainingLists(OrEmpty(staff), OrEmpty(aspects), OrEmpty(methods), OrEmpty(tests));
    }

    /** A select, input or text area of the form. */
    method SetText(f: TrainingField, value: string)
      modifies this
      ensures formData == old(formData).(text := old(formData.text)[f := value])
      ensures f in formData.text && formData.text[f] == value
      ensures forall g :: g != f ==> Get(formData.text, g) == Get(old(formData.text), g)
      ensures formData.isCompleted == old(formData.isCompleted)
      ensures lists == old(lists) && loading == old(loading) && trace == old(trace)
    {
      formData := formData.(text := formData.text[f := value]);
    }

    /** The completion check box. */
    method SetCompleted(checked: bool)
      modifies this
      ensures formData == old(formData).(isCompleted := checked)
      ensures lists == old(lists) && loading == old(loading) && trace == old(trace)
    {
      formData := formData.(isCompleted := checked);
    }

    /**
     * Saves the form: always an insert, there is no edit mode. `error` is the
     * backend's answer; on success the form is made ready for the next entry.
     */
    method HandleSubmit(error: Option<string>)
      modifies this
      ensures !loading
      ensures trace == old(trace) + [Loading(true), Request(Insert(Table, [old(formData)])), Loading(false)]
      ensures error.Some? ==> formData == old(formData)
      ensures error.None? ==> formData == AfterSave(old(formData))
      ensures lists == old(lists)
    {
      loading := true;
      trace := trace + [Loading(true), Request(Insert(Table, [formData])), Loading(false)];
      if error.None? {
        formData := AfterSave(formData);
      }
      loading := false;
    }
  }
}
