/**
 * The form-definition editor of src/pages/FormBuilder.jsx: the state
 * updaters passed to `setForm` are functions from the previous form to the
 * next, and `handleSave` checks a form before it is sent to the server.
 */
module Builder {
  import opened Wrappers
  import opened Forms
  import EmbedCode

  // ---------------------------------------------------------------------
  // String.prototype.trim
  // ---------------------------------------------------------------------

  /** Drop leading whitespace: what remains is a suffix starting with a non-space, or empty. */
  function TrimStart(s: string): (r: string)
    ensures |r| <= |s| && r == s[|s| - |r|..]
    ensures forall i :: 0 <= i < |s| - |r| ==> IsJsSpace(s[i])
    ensures r != [] ==> !IsJsSpace(r[0])
  {
    if s != [] && IsJsSpace(s[0]) then TrimStart(s[1..]) else s
  }

  /** Drop trailing whitespace: what remains is a prefix ending with a non-space, or empty. */
  function TrimEnd(s: string): (r: string)
    ensures |r| <= |s| && r == s[..|r|]
    ensures forall i :: |r| <= i < |s| ==> IsJsSpace(s[i])
    ensures r != [] ==> !IsJsSpace(r[|r| - 1])
  {
    if s != [] && IsJsSpace(s[|s| - 1]) then TrimEnd(s[..|s| - 1]) else s
  }

  function Trim(s: string): string {
    TrimEnd(TrimStart(s))
  }

  /** `!s.trim()`: the string is empty after trimming. */
  predicate IsBlank(s: string) {
    Trim(s) == ""
  }

  /** A string is blank exactly when every character of it is whitespace. */
  lemma BlankIffAllSpace(s: string)
    ensures IsBlank(s) <==> forall i :: 0 <= i < |s| ==> IsJsSpace(s[i])
  {
    var t := TrimStart(s);
    var k := |s| - |t|;
    assert forall i :: k <= i < |s| ==> s[i] == t[i - k];
    if forall i :: 0 <= i < |s| ==> IsJsSpace(s[i]) {
      assert t == [];
    }
  }

  // ---------------------------------------------------------------------
  // Save-time checks and the payload
  // ---------------------------------------------------------------------

  /** Why a save is refused, in the order the checks run. */
  datatype SaveError =
    | MissingTitle       // "Form title is required"
    | UntitledStep       // "All steps must have a title"
    | EmptyStep          // "Each step must have at least one field"
    | UnlabelledField    // "All fields must have a label"

  predicate StepsTitled(steps: seq<StepRecord>) {
    forall i :: 0 <= i < |steps| ==> !IsBlank(steps[i].title)
  }

  predicate StepsFilled(steps: seq<StepRecord>) {
    forall i :: 0 <= i < |steps| ==> |steps[i].fields| > 0
  }

  predicate FieldsLabelled(steps: seq<StepRecord>) {
    forall i, j :: 0 <= i < |steps| && 0 <= j < |steps[i].fields| ==> !IsBlank(steps[i].fields[j].labelText)
  }

  /** A form the save button accepts. */
  predicate Saveable(form: FormRecord) {
    !IsBlank(form.title) && StepsTitled(form.steps) && StepsFilled(form.steps) && FieldsLabelled(form.steps)
  }

  function StripField(f: FieldRecord): FieldRecord {
    FieldRecord(f.id, f.kind, f.labelText, f.required, map[])
  }

  /**
   * The object sent to the server: the form and its steps as they are, each
   * field reduced to id, type, label and required, order kept.
   */
  function Payload(form: FormRecord): (p: FormRecord)
    ensures p.id == form.id && p.title == form.title && p.useNetlify == form.useNetlify
    ensures p.formAction == form.formAction && p.styles == form.styles && p.extras == form.extras
    ensures |p.steps| == |form.steps|
    ensures forall i :: 0 <= i < |p.steps| ==>
      p.steps[i].id == form.steps[i].id && p.steps[i].title == form.steps[i].title
      && p.steps[i].extras == form.steps[i].extras
      && |p.steps[i].fields| == |form.steps[i].fields|
      && forall j :: 0 <= j < |p.steps[i].fields| ==>
           var f, g := p.steps[i].fields[j], form.steps[i].fields[j];
           f.id == g.id && f.kind == g.kind && f.labelText == g.labelText && f.required == g.required
           && f.extras == map[]
  {
    form.(steps := seq(|form.steps|, i requires 0 <= i < |form.steps| =>
      var step := form.steps[i];
      step.(fields := seq(|step.fields|, j requires 0 <= j < |step.fields| => StripField(step.fields[j])))))
  }

  /**
   * `handleSave`: the first failing check is reported and nothing is sent;
   * a form that passes all four is sent as its payload.
   */
  function HandleSave(form: FormRecord): (r: Result<FormRecord, SaveError>)
    ensures r.Success? <==> Saveable(form)
    ensures r.Success? ==> r.value == Payload(form)
    ensures r == Failure(MissingTitle) <==> IsBlank(form.title)
    ensures r == Failure(UntitledStep) <==> !IsBlank(form.title) && !StepsTitled(form.steps)
    ensures r == Failure(EmptyStep) <==>
      !IsBlank(form.title) && StepsTitled(form.steps) && !StepsFilled(form.steps)
    ensures r == Failure(UnlabelledField) <==>
      !IsBlank(form.title) && StepsTitled(form.steps) && StepsFilled(form.steps) && !FieldsLabelled(form.steps)
  {
    if IsBlank(form.title) then Failure(MissingTitle)
    else if !StepsTitled(form.steps) then Failure(UntitledStep)
    else if !StepsFilled(form.steps) then Failure(EmptyStep)
    else if !FieldsLabelled(form.steps) then Failure(UnlabelledField)
    else Success(Payload(form))
  }

  /** The payload carries the same configuration as the form it was made from. */
  lemma PayloadKeepsConfig(form: FormRecord)
    ensures EmbedCode.ConfigOf(Payload(form)) == EmbedCode.ConfigOf(form)
  {
    var a, b := EmbedCode.ConfigOf(Payload(form)), EmbedCode.ConfigOf(form);
    forall i | 0 <= i < |a.steps|
      ensures a.steps[i] == b.steps[i]
    {
      assert a.steps[i].fields == b.steps[i].fields;
    }
    assert a.steps == b.steps;
  }

  /** Saving what was saved sends it again unchanged: the payload is saveable and its own payload. */
  lemma ResaveIsStable(form: FormRecord)
    requires HandleSave(form).Success?
    ensures HandleSave(HandleSave(form).value) == HandleSave(form)
  {
    PayloadIdempotent(form);
    PayloadKeepsSaveable(form);
  }

  /** Stripping the fields a second time changes nothing. */
  lemma PayloadIdempotent(form: FormRecord)
    ensures Payload(Payload(form)) == Payload(form)
  {
    var p := Payload(form);
    var q := Payload(p);
    forall i | 0 <= i < |p.steps|
      ensures q.steps[i] == p.steps[i]
    {
      forall j | 0 <= j < |p.steps[i].fields|
        ensures q.steps[i].fields[j] == p.steps[i].fields[j]
      {
      }
      assert q.steps[i].fields == p.steps[i].fields;
    }
    assert q.steps == p.steps;
  }

  /** The payload passes the same four checks as the form it was made from. */
  lemma PayloadKeepsSaveable(form: FormRecord)
    requires Saveable(form)
    ensures Saveable(Payload(form))
  {
    var p := Payload(form);
    assert StepsTitled(p.steps);
    assert StepsFilled(p.steps);
    assert FieldsLabelled(p.steps);
  }

  /**
   * A saved form has at least one step for the runtime to show, and every
   * step of it has a field.
   */
  lemma SavedFormHasSteps(form: FormRecord)
    requires HandleSave(form).Success?
    requires |form.steps| > 0
    ensures var c := EmbedCode.ConfigOf(HandleSave(form).value);
            |c.steps| > 0 && forall i :: 0 <= i < |c.steps| ==> |c.steps[i].fields| > 0
  {
  }

  // ---------------------------------------------------------------------
  // The initial form
  // ---------------------------------------------------------------------

  const DefaultStyles: Styles := map[
    "colors" := map["primary" := "#3b82f6", "success" := "#10b981", "error" := "#ef4444",
                    "text" := "#374151", "background" := "#ffffff", "border" := "#d1d5db"],
    "typography" := map["fontSize" := "16px", "titleSize" := "1.25rem", "labelSize" := "0.875rem"],
    "spacing" := map["padding" := "0.75rem", "borderRadius" := "0.375rem", "modalWidth" := "500px"],
    "borders" := map["width" := "1px", "style" := "solid"],
    "buttons" := map["openText" := "Open Form", "nextText" := "Next",
                     "previousText" := "Previous", "submitText" := "Submit"]]

  function NewStep(id: string): StepRecord {
    StepRecord(id, "", [], map[])
  }

  function NewField(id: string): FieldRecord {
    FieldRecord(id, Text, "", false, map[])
  }

  /** The builder's state before anything is loaded: no title, one empty untitled step, the default styles. */
  function InitialForm(stepId: string): (form: FormRecord)
    ensures |form.steps| == 1 && form.steps[0].title == "" && form.steps[0].fields == []
    ensures form.title == "" && !form.useNetlify && form.formAction == ""
    ensures form.styles == DefaultStyles
  {
    FormRecord("", "", false, "", [NewStep(stepId)], DefaultStyles, map[])
  }

  /** The initial form cannot be saved as it is: its title is the first thing missing. */
  lemma InitialFormNotSaveable(stepId: string)
    ensures HandleSave(InitialForm(stepId)) == Failure(MissingTitle)
  {
    assert TrimStart("") == "";
  }

  // ---------------------------------------------------------------------
  // Editing operations
  // ---------------------------------------------------------------------

  /** `filter((_, index) => index !== k)`: drop position `k` if there is one. */
  function RemoveAt<T>(s: seq<T>, k: int): (r: seq<T>)
    ensures 0 <= k < |s| ==>
              |r| == |s| - 1
              && (forall i :: 0 <= i < k ==> r[i] == s[i])
              && (forall i :: k <= i < |r| ==> r[i] == s[i + 1])
    ensures !(0 <= k < |s|) ==> r == s
  {
    if 0 <= k < |s| then s[..k] + s[k + 1..] else s
  }

  /**
   * `map((x, idx) => idx === k ? f(x) : x)`: only the element at `k` is
   * replaced by `f` of it; an index that names no element changes nothing.
   */
  function MapAt<T>(s: seq<T>, k: int, f: T -> T): (r: seq<T>)
    ensures |r| == |s|
    ensures forall i :: 0 <= i < |r| ==> r[i] == if i == k then f(s[i]) else s[i]
  {
    seq(|s|, i requires 0 <= i < |s| => if i == k then f(s[i]) else s[i])
  }

  /** `addStep`: one empty, untitled step at the end. */
  function AddStep(form: FormRecord, newId: string): (r: FormRecord)
    ensures r == form.(steps := r.steps)
    ensures r.steps == form.steps + [NewStep(newId)]
  {
    form.(steps := form.steps + [NewStep(newId)])
  }

  datatype EditError = OnlyStep   // "Form must have at least one step"

  /** `deleteStep`: refused for the last remaining step; otherwise drops the step at `stepIndex`. */
  function DeleteStep(form: FormRecord, stepIndex: int): (r: Result<FormRecord, EditError>)
    ensures r.Failure? <==> |form.steps| == 1
    ensures r.Success? ==> r.value == form.(steps := r.value.steps)
    ensures r.Success? && 0 <= stepIndex < |form.steps| ==>
      |r.value.steps| == |form.steps| - 1
      && (forall i :: 0 <= i < stepIndex ==> r.value.steps[i] == form.steps[i])
      && (forall i :: stepIndex <= i < |r.value.steps| ==> r.value.steps[i] == form.steps[i + 1])
    ensures r.Success? && !(0 <= stepIndex < |form.steps|) ==> r.value == form
  {
    if |form.steps| == 1 then Failure(OnlyStep)
    else Success(form.(steps := RemoveAt(form.steps, stepIndex)))
  }

  /** `addField`: a new text field, unlabelled and optional, at the end of step `stepIndex` only. */
  function AddField(form: FormRecord, stepIndex: int, newId: string): (r: FormRecord)
    ensures r == form.(steps := r.steps) && |r.steps| == |form.steps|
    ensures forall i :: 0 <= i < |r.steps| && i != stepIndex ==> r.steps[i] == form.steps[i]
    ensures 0 <= stepIndex < |form.steps| ==>
      r.steps[stepIndex] == form.steps[stepIndex].(fields := form.steps[stepIndex].fields + [NewField(newId)])
  {
    form.(steps := MapAt(form.steps, stepIndex, (s: StepRecord) => s.(fields := s.fields + [NewField(newId)])))
  }

  /** `deleteField`: field `fieldIndex` of step `stepIndex` goes; every other step and field stays. */
  function DeleteField(form: FormRecord, stepIndex: int, fieldIndex: int): (r: FormRecord)
    ensures r == form.(steps := r.steps) && |r.steps| == |form.steps|
    ensures forall i :: 0 <= i < |r.steps| && i != stepIndex ==> r.steps[i] == form.steps[i]
    ensures 0 <= stepIndex < |form.steps| ==>
      r.steps[stepIndex] == form.steps[stepIndex].(fields := RemoveAt(form.steps[stepIndex].fields, fieldIndex))
  {
    form.(steps := MapAt(form.steps, stepIndex, (s: StepRecord) => s.(fields := RemoveAt(s.fields, fieldIndex))))
  }

  /** The partial objects the editor passes to `updateField`: one attribute at a time, or any mix. */
  datatype FieldUpdate = FieldUpdate(kind: Option<FieldKind>, labelText: Option<string>, required: Option<bool>)

  /** `{ ...field, ...updates }`. */
  function ApplyUpdate(field: FieldRecord, updates: FieldUpdate): (r: FieldRecord)
    ensures r.id == field.id && r.extras == field.extras
    ensures r.kind == updates.kind.GetOr(field.kind)
    ensures r.labelText == updates.labelText.GetOr(field.labelText)
    ensures r.required == updates.required.GetOr(field.required)
  {
    field.(kind := updates.kind.GetOr(field.kind),
           labelText := updates.labelText.GetOr(field.labelText),
           required := updates.required.GetOr(field.required))
  }

  /** `updateField`: only the targeted field changes, and only in the attributes the update names. */
  function UpdateField(form: FormRecord, stepIndex: int, fieldIndex: int, updates: FieldUpdate): (r: FormRecord)
    ensures r == form.(steps := r.steps) && |r.steps| == |form.steps|
    ensures forall i :: 0 <= i < |r.steps| ==>
      r.steps[i].id == form.steps[i].id && r.steps[i].title == form.steps[i].title
      && r.steps[i].extras == form.steps[i].extras
      && |r.steps[i].fields| == |form.steps[i].fields|
      && forall j :: 0 <= j < |r.steps[i].fields| ==>
           r.steps[i].fields[j] == if i == stepIndex && j == fieldIndex then ApplyUpdate(form.steps[i].fields[j], updates)
                                   else form.steps[i].fields[j]
  {
    form.(steps := MapAt(form.steps, stepIndex,
      (s: StepRecord) => s.(fields := MapAt(s.fields, fieldIndex, (f: FieldRecord) => ApplyUpdate(f, updates)))))
  }

  /** `updateStyle`: sets one token, creating its category when missing; every other token keeps its value. */
  function UpdateStyle(form: FormRecord, category: string, property: string, value: string): (r: FormRecord)
    ensures r == form.(styles := r.styles)
    ensures r.styles.Keys == form.styles.Keys + {category}
    ensures category in r.styles && property in r.styles[category] && r.styles[category][property] == value
    ensures forall c :: c in form.styles && c != category ==> r.styles[c] == form.styles[c]
    ensures r.styles[category].Keys == (if category in form.styles then form.styles[category].Keys else {}) + {property}
    ensures category in form.styles ==>
      forall p :: p in form.styles[category] && p != property ==> r.styles[category][p] == form.styles[category][p]
  {
    var tokens := if category in form.styles then form.styles[category] else map[];
    form.(styles := form.styles[category := tokens[property := value]])
  }

  /**
   * The step-title input: the step at `stepIndex` gets the new title. The
   * index always names a rendered step.
   */
  function SetStepTitle(form: FormRecord, stepIndex: nat, title: string): (r: FormRecord)
    requires stepIndex < |form.steps|
    ensures r == form.(steps := r.steps) && |r.steps| == |form.steps|
    ensures r.steps[stepIndex] == form.steps[stepIndex].(title := title)
    ensures forall i :: 0 <= i < |r.steps| && i != stepIndex ==> r.steps[i] == form.steps[i]
  {
    form.(steps := form.steps[stepIndex := form.steps[stepIndex].(title := title)])
  }

  // ---------------------------------------------------------------------
  // What the edits preserve
  // ---------------------------------------------------------------------

  /** An editor action. */
  datatype Edit =
    | AddStepEdit(stepId: string)
    | DeleteStepEdit(stepIndex: int)
    | AddFieldEdit(fieldStep: int, fieldId: string)
    | DeleteFieldEdit(stepOfField: int, fieldIndex: int)
    | UpdateFieldEdit(stepOfUpdate: int, fieldOfUpdate: int, updates: FieldUpdate)
    | UpdateStyleEdit(category: string, property: string, value: string)
    | SetStepTitleEdit(titledStep: int, title: string)

  /** The form after an action; a refused deletion and a title edit of no rendered step leave it as it is. */
  function Apply(form: FormRecord, e: Edit): FormRecord {
    match e
    case AddStepEdit(id) => AddStep(form, id)
    case DeleteStepEdit(k) => (match DeleteStep(form, k) case Success(f) => f case Failure(_) => form)
    case AddFieldEdit(k, id) => AddField(form, k, id)
    case DeleteFieldEdit(k, j) => DeleteField(form, k, j)
    case UpdateFieldEdit(k, j, u) => UpdateField(form, k, j, u)
    case UpdateStyleEdit(c, p, v) => UpdateStyle(form, c, p, v)
    case SetStepTitleEdit(k, t) => if 0 <= k < |form.steps| then SetStepTitle(form, k, t) else form
  }

  function ApplyAll(form: FormRecord, edits: seq<Edit>): FormRecord
    decreases |edits|
  {
    if edits == [] then form else ApplyAll(Apply(form, edits[0]), edits[1..])
  }

  /** No single action removes the last step. */
  lemma EditKeepsAStep(form: FormRecord, e: Edit)
    requires |form.steps| > 0
    ensures |Apply(form, e).steps| > 0
  {
  }

  /** From any form with a step, every sequence of editor actions leaves at least one step. */
  lemma {:induction false} EditsKeepAStep(form: FormRecord, edits: seq<Edit>)
    requires |form.steps| > 0
    ensures |ApplyAll(form, edits).steps| > 0
    decreases |edits|
  {
    if edits != [] {
      EditKeepsAStep(form, edits[0]);
      EditsKeepAStep(Apply(form, edits[0]), edits[1..]);
    }
  }

  /** Hence so does every editing session that starts from the initial form. */
  lemma InitialThenEditsKeepAStep(stepId: string, edits: seq<Edit>)
    ensures |ApplyAll(InitialForm(stepId), edits).steps| > 0
  {
    EditsKeepAStep(InitialForm(stepId), edits);
  }

  /** Deleting the step just added restores the form. */
  lemma AddStepThenDelete(form: FormRecord, newId: string)
    requires |form.steps| > 0
    ensures DeleteStep(AddStep(form, newId), |form.steps|) == Success(form)
  {
    var r := DeleteStep(AddStep(form, newId), |form.steps|);
    assert r.value.steps == form.steps;
  }

  /** Deleting the field just added restores the form. */
  lemma AddFieldThenDelete(form: FormRecord, stepIndex: nat, newId: string)
    requires stepIndex < |form.steps|
    ensures DeleteField(AddField(form, stepIndex, newId), stepIndex, |form.steps[stepIndex].fields|) == form
  {
    var r := DeleteField(AddField(form, stepIndex, newId), stepIndex, |form.steps[stepIndex].fields|);
    var fields := form.steps[stepIndex].fields;
    assert (fields + [NewField(newId)])[..|fields|] == fields;
    assert r.steps[stepIndex] == form.steps[stepIndex];
    assert r.steps == form.steps;
  }
}
