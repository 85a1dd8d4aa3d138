/**
 * The React form widget (src/components/FormWidget.jsx): a modal that shows
 * one step of a form at a time, validates with the shared field rules and
 * hands a valid final submit either to the browser or to an in-page handler.
 * The component's state hooks are the fields of the class; each handler is a
 * method.
 */
module Widget {
  import opened Forms

  /**
   * The `forEach` over a step's fields that both handlers run: it keeps the
   * failing fields' messages and clears a validity flag on the first failure.
   */
  method CollectErrors(fields: seq<Field>, data: map<string, string>, isNaN: string -> bool)
    returns (newErrors: map<string, string>, isValid: bool)
    ensures newErrors == Failures(fields, data, isNaN)
    ensures isValid <==> AllPass(fields, data, isNaN)
    ensures isValid <==> newErrors == map[]
  {
    newErrors := map[];
    isValid := true;
    var i := 0;
    while i < |fields|
      invariant 0 <= i <= |fields|
      invariant newErrors == Failures(fields[..i], data, isNaN)
      invariant isValid <==> newErrors == map[]
    {
      var field := fields[i];
      var error := ValidateField(field, ValueOf(data, field.id), isNaN);
      CollectOneError(fields, i, data, isNaN);
      if error != "" {
        newErrors := newErrors[field.id := error];
        isValid := false;
        assert field.id in newErrors;
      }
      i := i + 1;
    }
    assert fields[..|fields|] == fields;
    FailuresEmptyIffAllPass(fields, data, isNaN);
  }

  /** What the `i`-th iteration of the loop of CollectErrors adds to the state of the first `i`. */
  lemma CollectOneError(fields: seq<Field>, i: nat, data: map<string, string>, isNaN: string -> bool)
    requires i < |fields|
    ensures var field := fields[i];
            var error := ValidateField(field, ValueOf(data, field.id), isNaN);
            var before := Failures(fields[..i], data, isNaN);
            Failures(fields[..i + 1], data, isNaN) == (if error != "" then before[field.id := error] else before)
  {
    assert fields[..i + 1][..i] == fields[..i];
  }

  class FormWidget {
    const form: Config
    const isNaN: string -> bool
    var isOpen: bool
    var currentStep: nat
    var formData: map<string, string>
    var errors: map<string, string>

    /** The step index stays on an existing step (every control keeps it there). */
    ghost predicate Valid()
      reads this
    {
      currentStep < |form.steps|
    }

    /** The initial hook values; the form has at least one step, as the builder guarantees. */
    constructor (form: Config, isNaN: string -> bool)
      requires |form.steps| > 0
      ensures this.form == form && this.isNaN == isNaN
      ensures !isOpen && currentStep == 0 && formData == map[] && errors == map[]
      ensures Valid()
    {
      this.form := form;
      this.isNaN := isNaN;
      isOpen := false;
      currentStep := 0;
      formData := map[];
      errors := map[];
    }

    function CurrentFields(): seq<Field>
      reads this
      requires Valid()
    {
      form.steps[currentStep].fields
    }

    /** The Previous button is rendered only past the first step. */
    predicate PreviousShown()
      reads this
    {
      currentStep > 0
    }

    /** The Next button is rendered before the last step; on the last step it is Submit. */
    predicate NextShown()
      reads this
    {
      currentStep < |form.steps| - 1
    }

    /** Progress segment `i` is highlighted up to and including the current step. */
    predicate ProgressActive(i: nat)
      reads this
    {
      i <= currentStep
    }

    /** What an input of the current step displays, and whether its error line is shown. */
    function DisplayValue(id: string): string
      reads this
    {
      ValueOf(formData, id)
    }

    predicate ErrorShown(id: string)
      reads this
    {
      id in errors && errors[id] != ""
    }

    /** The open button only shows the modal; it does not reset anything. */
    method Open()
      modifies this`isOpen
      ensures isOpen
    {
      isOpen := true;
    }

    /** The close button only hides the modal: step, values and errors are kept. */
    method Close()
      modifies this`isOpen
      ensures !isOpen
    {
      isOpen := false;
    }

    /**
     * Next: record the current step's failures, then advance by one whatever
     * they are. Only reachable while the Next button is rendered.
     */
    method HandleNext()
      requires Valid() && NextShown()
      modifies this`errors, this`currentStep
      ensures Valid()
      ensures errors == Failures(old(CurrentFields()), formData, isNaN)
      ensures currentStep == old(currentStep) + 1
    {
      var newErrors, _ := CollectErrors(form.steps[currentStep].fields, formData, isNaN);
      errors := newErrors;
      currentStep := currentStep + 1;
    }

    /** Previous: back one step. Only reachable while the Previous button is rendered. */
    method HandlePrevious()
      requires Valid() && PreviousShown()
      modifies this`currentStep
      ensures Valid()
      ensures currentStep == old(currentStep) - 1
    {
      currentStep := currentStep - 1;
    }

    /**
     * The form's submit handler (Submit button, or Enter in any input): check
     * the current step only; on failure show the errors and stop; otherwise
     * delegate to the browser when a target is configured, or accept the
     * values and reset the whole widget.
     */
    method HandleSubmit() returns (outcome: SubmitOutcome)
      requires Valid()
      modifies this
      ensures Valid()
      ensures var failures := Failures(old(CurrentFields()), old(formData), isNaN);
        if failures != map[] then
          outcome == Rejected && errors == failures
          && isOpen == old(isOpen) && currentStep == old(currentStep) && formData == old(formData)
        else if Delegates(form) then
          outcome == NativeSubmit && errors == map[]
          && isOpen == old(isOpen) && currentStep == old(currentStep) && formData == old(formData)
        else
          outcome == Accepted(old(formData))
          && !isOpen && currentStep == 0 && formData == map[] && errors == map[]
    {
      var newErrors, isValid := CollectErrors(form.steps[currentStep].fields, formData, isNaN);
      errors := newErrors;
      if !isValid {
        return Rejected;
      }
      if form.useNetlify || form.formAction != "" {
        outcome := NativeSubmit;
      } else {
        outcome := Accepted(formData);
        isOpen := false;
        currentStep := 0;
        formData := map[];
        errors := map[];
      }
    }

    /** Typing stores the value and blanks that field's error if one is shown; nothing else changes. */
    method HandleInputChange(fieldId: string, value: string)
      modifies this`formData, this`errors
      ensures formData == old(formData)[fieldId := value]
      ensures errors == if old(ErrorShown(fieldId)) then old(errors)[fieldId := ""] else old(errors)
    {
      formData := formData[fieldId := value];
      if fieldId in errors && errors[fieldId] != "" {
        errors := errors[fieldId := ""];
      }
    }
  }
}
