/**
 * The embed-code generator of src/pages/FormPreview.jsx: it projects a stored
 * form onto the configuration literal and wraps that literal, together with
 * the fixed runtime script text, into either a preview fragment or a full,
 * self-executing embed snippet. `serialize` stands for `JSON.stringify` and
 * `runtime` for the fixed script text that follows the literal (the style
 * sheet template and the `MultiStepForm` class).
 */
module EmbedCode {
  import opened Forms

  function FieldConfig(r: FieldRecord): Field {
    Field(r.id, r.kind, r.labelText, r.required)
  }

  function StepConfig(r: StepRecord): Step {
    Step(r.id, r.title, seq(|r.fields|, j requires 0 <= j < |r.fields| => FieldConfig(r.fields[j])))
  }

  /**
   * The configuration literal: the form's id, title, submission flags and
   * styles, and its steps reduced to id, title and fields, each field reduced
   * to id, type, label and required; order of steps and fields is kept.
   */
  function ConfigOf(form: FormRecord): (c: Config)
    ensures c.id == form.id && c.title == form.title && c.styles == form.styles
    ensures c.useNetlify == form.useNetlify && c.formAction == form.formAction
    ensures |c.steps| == |form.steps|
    ensures forall i :: 0 <= i < |c.steps| ==>
      c.steps[i].id == form.steps[i].id && c.steps[i].title == form.steps[i].title
      && |c.steps[i].fields| == |form.steps[i].fields|
      && forall j :: 0 <= j < |c.steps[i].fields| ==>
           var f, r := c.steps[i].fields[j], form.steps[i].fields[j];
           f.id == r.id && f.kind == r.kind && f.labelText == r.labelText && f.required == r.required
  {
    Config(form.id, form.title, form.useNetlify, form.formAction,
      seq(|form.steps|, i requires 0 <= i < |form.steps| => StepConfig(form.steps[i])),
      form.styles)
  }

  /** A configuration read back as a stored record with no other attributes. */
  function RecordOf(c: Config): FormRecord {
    FormRecord(c.id, c.title, c.useNetlify, c.formAction,
      seq(|c.steps|, i requires 0 <= i < |c.steps| =>
        var s := c.steps[i];
        StepRecord(s.id, s.title,
          seq(|s.fields|, j requires 0 <= j < |s.fields| =>
            var f := s.fields[j];
            FieldRecord(f.id, f.kind, f.labelText, f.required, map[])),
          map[])),
      c.styles, map[])
  }

  /** The record carries nothing beyond what the configuration keeps. */
  predicate NoExtras(r: FormRecord) {
    r.extras == map[]
    && forall i :: 0 <= i < |r.steps| ==>
         r.steps[i].extras == map[]
         && forall j :: 0 <= j < |r.steps[i].fields| ==> r.steps[i].fields[j].extras == map[]
  }

  /** Projection loses nothing of a configuration: reading it back and projecting again is the identity. */
  lemma ConfigOfRecordOf(c: Config)
    ensures ConfigOf(RecordOf(c)) == c
  {
    var c' := ConfigOf(RecordOf(c));
    assert |c'.steps| == |c.steps|;
    forall i | 0 <= i < |c.steps|
      ensures c'.steps[i] == c.steps[i]
    {
      assert c'.steps[i].fields == c.steps[i].fields;
    }
  }

  /** Projection is lossless exactly on records without other attributes. */
  lemma RecordOfConfigOf(r: FormRecord)
    ensures RecordOf(ConfigOf(r)) == r <==> NoExtras(r)
  {
    var r' := RecordOf(ConfigOf(r));
    assert NoExtras(r');
    if NoExtras(r) {
      forall i | 0 <= i < |r.steps|
        ensures r'.steps[i] == r.steps[i]
      {
        assert r'.steps[i].fields == r.steps[i].fields;
      }
      assert r'.steps == r.steps;
    }
  }

  const ConfigPrelude := "\n  const formConfig = "
  const Banner := "\n<!-- Form Generator Widget -->\n"
  const ScriptOpen := "\n\n<script>\n(function() {\n"
  const ScriptClose := "\n})();\n</script>"

  /** The container element the full snippet puts before its script. */
  function ContainerTag(id: string): string {
    "<div id=\"form-widget-" + id + "\"></div>"
  }

  /**
   * `generateEmbedCode(isPreview)`: the preview fragment is the configuration
   * literal followed by the runtime text; the full snippet calls the function
   * again for the preview fragment and puts it, after the container element,
   * inside an immediately invoked function.
   *
   * The preview fragment opens with the prelude, the literal comes right after
   * it, and the runtime text takes the rest. The full snippet is the banner,
   * the container and the opening of the wrapper, then exactly the preview
   * fragment, and nothing after it but the closing of the wrapper.
   */
  function GenerateEmbedCode(form: FormRecord, isPreview: bool, serialize: Config -> string, runtime: string): (code: string)
    ensures isPreview ==>
      var literal := serialize(ConfigOf(form));
      var n := |ConfigPrelude| + |literal|;
      |code| == n + |runtime|
      && code[..|ConfigPrelude|] == ConfigPrelude && code[|ConfigPrelude|..n] == literal && code[n..] == runtime
    ensures !isPreview ==>
      var preview := GenerateEmbedCode(form, true, serialize, runtime);
      var head := Banner + ContainerTag(form.id) + ScriptOpen;
      |code| == |head| + |preview| + |ScriptClose|
      && code[..|head|] == head
      && code[|head|..|head| + |preview|] == preview
      && code[|head| + |preview|..] == ScriptClose
    decreases !isPreview
  {
    if isPreview then
      var literal := serialize(ConfigOf(form));
      var code := ConfigPrelude + literal + runtime;
      assert code[..|ConfigPrelude|] == ConfigPrelude;
      assert code[|ConfigPrelude|..|ConfigPrelude| + |literal|] == literal;
      code
    else
      var preview := GenerateEmbedCode(form, true, serialize, runtime);
      var head := Banner + ContainerTag(form.id) + ScriptOpen;
      var code := head + preview + ScriptClose;
      assert code[|head|..|head| + |preview|] == preview;
      code
  }

  /**
   * Both modes depend on the form only through its projection: two stored
   * forms with the same configuration literal give byte-identical code, so
   * regenerating an unchanged form reproduces the same text.
   */
  lemma DependsOnlyOnConfig(f1: FormRecord, f2: FormRecord, isPreview: bool, serialize: Config -> string, runtime: string)
    requires ConfigOf(f1) == ConfigOf(f2)
    ensures GenerateEmbedCode(f1, isPreview, serialize, runtime) == GenerateEmbedCode(f2, isPreview, serialize, runtime)
  {
    assert f1.id == ConfigOf(f1).id;
  }
}

/**
 * The `MultiStepForm` class that the generated script defines and
 * instantiates (src/pages/FormPreview.jsx). Its DOM is modelled by the state
 * it shows: whether the overlay is active, which progress segments and which
 * step are active, which buttons are displayed, and each field's error text
 * and error highlighting.
 */
module EmbedRuntime {
  import opened Wrappers
  import opened Forms

  /** What the navigation part of the modal shows. */
  datatype Controls = Controls(
    progress: seq<bool>,        // the `active` class of each progress segment
    visibleSteps: seq<bool>,    // the `active` class of each step's container
    previous: bool,             // the Previous button is displayed
    next: bool,                 // the Next button is displayed
    submit: bool)               // the Submit button is displayed

  /** The controls `updateUI` sets for step `step` of an `n`-step form. */
  function ControlsFor(step: nat, n: nat): (c: Controls)
    ensures |c.progress| == n && |c.visibleSteps| == n
    ensures forall i :: 0 <= i < n ==> (c.progress[i] <==> i <= step)
    ensures forall i :: 0 <= i < n ==> (c.visibleSteps[i] <==> i == step)
    ensures c.previous <==> step != 0
    ensures c.next <==> step != n - 1
    ensures c.submit <==> step == n - 1
  {
    Controls(seq(n, i => i <= step), seq(n, i => i == step), step != 0, step != n - 1, step == n - 1)
  }

  /** On every step exactly one of Next and Submit is displayed. */
  lemma NextOrSubmit(step: nat, n: nat)
    ensures ControlsFor(step, n).next != ControlsFor(step, n).submit
  {
  }

  /**
   * The controls as `createModal` builds them, before any `updateUI`: first
   * segment and first step active, Previous hidden, Next left displayed,
   * Submit hidden.
   */
  function CreatedControls(n: nat): Controls {
    Controls(seq(n, i => i == 0), seq(n, i => i == 0), false, true, false)
  }

  /**
   * The controls built by `createModal` agree with those `updateUI` gives for
   * step 0 except for a one-step form, where Next is displayed and Submit is
   * hidden although step 0 is the last step.
   */
  lemma {:induction false} CreatedControlsWrongForOneStep(n: nat)
    ensures CreatedControls(n) == ControlsFor(0, n) <==> n != 1
    ensures n == 1 ==> CreatedControls(n).next && !CreatedControls(n).submit
  {
    var c, u := CreatedControls(n), ControlsFor(0, n);
    assert c.progress == u.progress by {
      assert forall i :: 0 <= i < n ==> c.progress[i] == u.progress[i];
    }
    assert c.visibleSteps == u.visibleSteps;
    if n == 1 {
      assert c.next != u.next;
    }
  }

  // ---------------------------------------------------------------------
  // Button captions: a style token when it is non-empty, else a default.
  // ---------------------------------------------------------------------

  /** A style token, the empty string when its category or property is missing (as `undefined || ''`). */
  function StyleToken(styles: Styles, category: string, property: string): string {
    if category in styles && property in styles[category] then styles[category][property] else ""
  }

  datatype Captions = Captions(open: string, previous: string, next: string, submit: string)

  function ButtonCaptions(config: Config): (c: Captions)
    requires "buttons" in config.styles
    ensures var t := StyleToken(config.styles, "buttons", "openText");
            c.open == if t != "" then t else "Open " + config.title
    ensures var t := StyleToken(config.styles, "buttons", "previousText");
            c.previous == if t != "" then t else "Previous"
    ensures var t := StyleToken(config.styles, "buttons", "nextText");
            c.next == if t != "" then t else "Next"
    ensures var t := StyleToken(config.styles, "buttons", "submitText");
            c.submit == if t != "" then t else "Submit"
    ensures c.open != "" && c.previous != "" && c.next != "" && c.submit != ""
  {
    var o := StyleToken(config.styles, "buttons", "openText");
    var p := StyleToken(config.styles, "buttons", "previousText");
    var x := StyleToken(config.styles, "buttons", "nextText");
    var s := StyleToken(config.styles, "buttons", "submitText");
    Captions(
      if o != "" then o else "Open " + config.title,
      if p != "" then p else "Previous",
      if x != "" then x else "Next",
      if s != "" then s else "Submit")
  }

  /** After validation, the fields whose error is displayed. */
  function ShownAfter(shown: set<string>, messages: map<string, string>): set<string> {
    (shown - messages.Keys) + (set id | id in messages && messages[id] != "")
  }

  class MultiStepForm {
    const config: Config
    const isNaN: string -> bool
    var currentStep: nat
    var formData: map<string, string>
    var isOpen: bool                      // the overlay's `active` class
    var errorText: map<string, string>    // text of each field's error element
    var errorShown: set<string>            // fields whose error element and input carry the error class
    var progress: seq<bool>
    var visibleSteps: seq<bool>
    var previousShown: bool
    var nextShown: bool
    var submitShown: bool

    function Shown(): Controls
      reads this
    {
      Controls(progress, visibleSteps, previousShown, nextShown, submitShown)
    }

    /** One progress segment and one step container per step. */
    ghost predicate Shaped()
      reads this
    {
      |progress| == |config.steps| && |visibleSteps| == |config.steps|
    }

    /** The step index names an existing step and the controls show it. */
    ghost predicate Valid()
      reads this
    {
      Shaped() && 0 < |config.steps| && currentStep < |config.steps|
      && Shown() == ControlsFor(currentStep, |config.steps|)
    }

    function CurrentFields(): seq<Field>
      reads this
      requires Valid()
    {
      config.steps[currentStep].fields
    }

    /**
     * `new MultiStepForm(formConfig)`, corrected: step 0, no values, overlay
     * hidden, no error shown, and the controls `createModal` builds, followed
     * by one `updateUI` so that they are those of step 0. The original
     * constructor stops after `createModal` (see CreatedControlsWrongForOneStep).
     */
    constructor (config: Config, isNaN: string -> bool)
      requires |config.steps| > 0 && "buttons" in config.styles
      ensures this.config == config && this.isNaN == isNaN
      ensures currentStep == 0 && formData == map[] && !isOpen
      ensures errorText == map[] && errorShown == {}
      ensures Valid()
    {
      this.config := config;
      this.isNaN := isNaN;
      currentStep := 0;
      formData := map[];
      isOpen := false;
      errorText := map[];
      errorShown := {};
      var created := CreatedControls(|config.steps|);
      progress := created.progress;
      visibleSteps := created.visibleSteps;
      previousShown := created.previous;
      nextShown := created.next;
      submitShown := created.submit;
      new;
      UpdateUI();
    }

    /** `updateUI`: toggle every progress segment and step container, then the three buttons. */
    method UpdateUI()
      requires Shaped()
      modifies this`progress, this`visibleSteps, this`previousShown, this`nextShown, this`submitShown
      ensures Shaped()
      ensures Shown() == ControlsFor(currentStep, |config.steps|)
    {
      var n := |config.steps|;
      var segments, containers := progress, visibleSteps;
      var i := 0;
      while i < n
        invariant |segments| == n && 0 <= i <= n
        invariant forall k :: 0 <= k < i ==> segments[k] == (k <= currentStep)
      {
        segments := segments[i := i <= currentStep];
        i := i + 1;
      }
      i := 0;
      while i < n
        invariant |containers| == n && 0 <= i <= n
        invariant forall k :: 0 <= k < i ==> containers[k] == (k == currentStep)
      {
        containers := containers[i := i == currentStep];
        i := i + 1;
      }
      assert segments == ControlsFor(currentStep, n).progress;
      assert containers == ControlsFor(currentStep, n).visibleSteps;
      progress, visibleSteps := segments, containers;
      previousShown := currentStep != 0;
      nextShown := currentStep != n - 1;
      submitShown := currentStep == n - 1;
    }

    /**
     * `validateStep`: every field of the current step gets its message
     * written and its highlighting set accordingly; the result is true
     * exactly when no field failed.
     */
    method ValidateStep() returns (isValid: bool)
      requires Valid()
      modifies this`errorText, this`errorShown
      ensures isValid <==> AllPass(CurrentFields(), formData, isNaN)
      ensures errorText == old(errorText) + Messages(CurrentFields(), formData, isNaN)
      ensures errorShown == ShownAfter(old(errorShown), Messages(CurrentFields(), formData, isNaN))
    {
      var text, shown;
      isValid, text, shown := ShowErrors(config.steps[currentStep].fields, formData, isNaN, errorText, errorShown);
      errorText, errorShown := text, shown;
    }

    /** A change event stores the value and removes the field's error highlighting; its text stays. */
    method HandleInputChange(fieldId: string, value: string)
      modifies this`formData, this`errorShown
      ensures formData == old(formData)[fieldId := value]
      ensures errorShown == old(errorShown) - {fieldId}
    {
      formData := formData[fieldId := value];
      errorShown := errorShown - {fieldId};
    }

    /** Next advances only when the current step validates; only reachable while Next is displayed. */
    method NextStep()
      requires Valid() && nextShown
      modifies this
      ensures Valid()
      ensures currentStep == if AllPass(old(CurrentFields()), formData, isNaN) then old(currentStep) + 1
                             else old(currentStep)
      ensures formData == old(formData) && isOpen == old(isOpen)
      ensures errorText == old(errorText) + Messages(old(CurrentFields()), formData, isNaN)
      ensures errorShown == ShownAfter(old(errorShown), Messages(old(CurrentFields()), formData, isNaN))
    {
      ghost var fields := CurrentFields();
      assert currentStep < |config.steps| - 1 by {
        assert Shown().next == nextShown;
      }
      var ok := ValidateStep();
      if ok {
        currentStep := currentStep + 1;
        UpdateUI();
      }
      assert formData == old(formData) && fields == old(CurrentFields());
    }

    /** Previous goes back one step, and does nothing on the first step. */
    method PreviousStep()
      requires Valid()
      modifies this`currentStep, this`progress, this`visibleSteps, this`previousShown, this`nextShown, this`submitShown
      ensures Valid()
      ensures currentStep == if old(currentStep) > 0 then old(currentStep) - 1 else old(currentStep)
    {
      if currentStep > 0 {
        currentStep := currentStep - 1;
        UpdateUI();
      }
    }

    method OpenModal()
      modifies this`isOpen
      ensures isOpen
    {
      isOpen := true;
    }

    /** `resetForm`: back to step 0 with no values, controls updated, inputs cleared. */
    method ResetForm()
      requires Shaped() && 0 < |config.steps|
      modifies this`currentStep, this`formData, this`progress, this`visibleSteps, this`previousShown, this`nextShown, this`submitShown
      ensures Valid()
      ensures currentStep == 0 && formData == map[]
    {
      currentStep := 0;
      formData := map[];
      UpdateUI();
    }

    /** `closeModal`: hide the overlay and reset; error texts are left as they were. */
    method CloseModal()
      requires Valid()
      modifies this`isOpen, this`currentStep, this`formData, this`progress, this`visibleSteps, this`previousShown, this`nextShown, this`submitShown
      ensures Valid()
      ensures !isOpen && currentStep == 0 && formData == map[]
    {
      isOpen := false;
      ResetForm();
    }

    /**
     * The submit handler: nothing happens beyond showing the errors when the
     * current step fails; otherwise the browser submits natively when a
     * target is configured, or the values are accepted and the modal closes
     * and resets.
     */
    method HandleSubmit() returns (outcome: SubmitOutcome)
      requires Valid()
      modifies this
      ensures Valid()
      ensures errorText == old(errorText) + Messages(old(CurrentFields()), old(formData), isNaN)
      ensures errorShown == ShownAfter(old(errorShown), Messages(old(CurrentFields()), old(formData), isNaN))
      ensures if !AllPass(old(CurrentFields()), old(formData), isNaN) then
                outcome == Rejected
                && currentStep == old(currentStep) && formData == old(formData) && isOpen == old(isOpen)
              else if Delegates(config) then
                outcome == NativeSubmit
                && currentStep == old(currentStep) && formData == old(formData) && isOpen == old(isOpen)
              else
                outcome == Accepted(old(formData)) && !isOpen && currentStep == 0 && formData == map[]
    {
      var ok := ValidateStep();
      if !ok {
        return Rejected;
      }
      if config.useNetlify || config.formAction != "" {
        outcome := NativeSubmit;
      } else {
        outcome := Accepted(formData);
        CloseModal();
      }
    }
  }

  /**
   * The loop of `validateStep` over the step's fields: write each field's
   * message into its error element and toggle its highlighting, and clear
   * the flag on any failure.
   */
  method ShowErrors(fields: seq<Field>, data: map<string, string>, isNaN: string -> bool,
                    text0: map<string, string>, shown0: set<string>)
    returns (isValid: bool, text: map<string, string>, shown: set<string>)
    ensures isValid <==> AllPass(fields, data, isNaN)
    ensures text == text0 + Messages(fields, data, isNaN)
    ensures shown == ShownAfter(shown0, Messages(fields, data, isNaN))
  {
    isValid, text, shown := true, text0, shown0;
    var i := 0;
    while i < |fields|
      invariant 0 <= i <= |fields|
      invariant ShowErrorsState(fields[..i], data, isNaN, text0, shown0, isValid, text, shown)
    {
      var field := fields[i];
      var errorMessage := ValidateField(field, ValueOf(data, field.id), isNaN);
      ShowOneError(fields, i, data, isNaN, text0, shown0, isValid, text, shown);
      if errorMessage != "" {
        isValid := false;
        shown := shown + {field.id};
      } else {
        shown := shown - {field.id};
      }
      text := text[field.id := errorMessage];
      i := i + 1;
    }
    assert fields[..|fields|] == fields;
    FailuresEmptyIffAllPass(fields, data, isNaN);
  }

  /** The state of the loop of ShowErrors once it has handled `done`. */
  ghost predicate ShowErrorsState(done: seq<Field>, data: map<string, string>, isNaN: string -> bool,
                                  text0: map<string, string>, shown0: set<string>,
                                  isValid: bool, text: map<string, string>, shown: set<string>)
  {
    && (isValid <==> Failures(done, data, isNaN) == map[])
    && text == text0 + Messages(done, data, isNaN)
    && shown == ShownAfter(shown0, Messages(done, data, isNaN))
  }

  /** The `i`-th iteration of the loop of ShowErrors takes its state over the first `i` fields to the first `i + 1`. */
  lemma ShowOneError(fields: seq<Field>, i: nat, data: map<string, string>, isNaN: string -> bool,
                     text0: map<string, string>, shown0: set<string>,
                     isValid: bool, text: map<string, string>, shown: set<string>)
    requires i < |fields|
    requires ShowErrorsState(fields[..i], data, isNaN, text0, shown0, isValid, text, shown)
    ensures var field := fields[i];
            var message := ValidateField(field, ValueOf(data, field.id), isNaN);
            ShowErrorsState(fields[..i + 1], data, isNaN, text0, shown0,
                            isValid && message == "", text[field.id := message],
                            if message != "" then shown + {field.id} else shown - {field.id})
  {
    var field := fields[i];
    var message := ValidateField(field, ValueOf(data, field.id), isNaN);
    var before := Messages(fields[..i], data, isNaN);
    assert fields[..i + 1][..i] == fields[..i];
    assert Messages(fields[..i + 1], data, isNaN) == before[field.id := message];
    if message != "" {
      assert field.id in Failures(fields[..i + 1], data, isNaN);
    } else {
      assert Failures(fields[..i + 1], data, isNaN) == Failures(fields[..i], data, isNaN);
    }
    ShownAfterUpdate(shown0, before, field.id, message);
    MergeUpdate(text0, before, field.id, message);
  }

  lemma MergeUpdate(base: map<string, string>, messages: map<string, string>, id: string, message: string)
    ensures (base + messages)[id := message] == base + messages[id := message]
  {
  }

  /** One more message moves the shown set as a single toggle would. */
  lemma ShownAfterUpdate(shown: set<string>, messages: map<string, string>, id: string, message: string)
    ensures ShownAfter(shown, messages[id := message])
         == if message != "" then ShownAfter(shown, messages) + {id} else ShownAfter(shown, messages) - {id}
  {
  }
}
