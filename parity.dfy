/**
 * The two copies of the multi-step form runtime side by side: the React
 * widget (src/components/FormWidget.jsx) and the script the embed code
 * carries (src/pages/FormPreview.jsx) run the same field rules but differ in
 * what Next does with a step that fails them.
 */
module Parity {
  import opened Forms
  import Widget
  import EmbedRuntime

  /** The widget: open, one input on the first step, Next. */
  method WidgetNext(config: Config, isNaN: string -> bool, fieldId: string, value: string) returns (step: nat)
    requires |config.steps| >= 2
    ensures step == 1
  {
    var widget := new Widget.FormWidget(config, isNaN);
    widget.Open();
    widget.HandleInputChange(fieldId, value);
    assert widget.currentStep == 0;
    widget.HandleNext();
    step := widget.currentStep;
  }

  /** The embed script: open, one input on the first step, Next. */
  method ScriptNext(config: Config, isNaN: string -> bool, fieldId: string, value: string) returns (step: nat)
    requires |config.steps| >= 2 && "buttons" in config.styles
    ensures step == if AllPass(config.steps[0].fields, map[fieldId := value], isNaN) then 1 else 0
  {
    var script := new EmbedRuntime.MultiStepForm(config, isNaN);
    script.OpenModal();
    script.HandleInputChange(fieldId, value);
    assert script.formData == map[fieldId := value] && script.CurrentFields() == config.steps[0].fields;
    script.NextStep();
    step := script.currentStep;
  }

  /**
   * Both runtimes on the same form and the same single input on the first
   * step, then Next: the widget always moves to the second step, the script
   * only when the first step passes, so they end on the same step exactly
   * when it passes.
   */
  method NextOnBoth(config: Config, isNaN: string -> bool, fieldId: string, value: string)
    returns (widgetStep: nat, scriptStep: nat)
    requires |config.steps| >= 2 && "buttons" in config.styles
    ensures widgetStep == 1
    ensures scriptStep == if AllPass(config.steps[0].fields, map[fieldId := value], isNaN) then 1 else 0
    ensures widgetStep == scriptStep <==> AllPass(config.steps[0].fields, map[fieldId := value], isNaN)
  {
    widgetStep := WidgetNext(config, isNaN, fieldId, value);
    scriptStep := ScriptNext(config, isNaN, fieldId, value);
  }

  /**
   * Any widget and any script showing the same form on the same step with the
   * same values, then Next on both: the widget always moves on, the script
   * only when the step passes, so they stay together exactly when it passes.
   * With distinct field ids the widget's errors are then exactly the script's
   * non-empty messages for that step.
   */
  method NextFromSameState(widget: Widget.FormWidget, script: EmbedRuntime.MultiStepForm)
    requires widget.Valid() && script.Valid()
    requires widget.form == script.config && widget.isNaN == script.isNaN
    requires widget.currentStep == script.currentStep && widget.formData == script.formData
    requires widget.NextShown()
    modifies widget, script
    ensures widget.currentStep == old(widget.currentStep) + 1
    ensures script.currentStep
            == if AllPass(old(script.CurrentFields()), script.formData, script.isNaN) then old(script.currentStep) + 1
               else old(script.currentStep)
    ensures widget.currentStep == script.currentStep <==> AllPass(old(script.CurrentFields()), script.formData, script.isNaN)
    ensures UniqueIds(old(script.CurrentFields())) ==>
            var m := Messages(old(script.CurrentFields()), script.formData, script.isNaN);
            widget.errors == map id | id in m && m[id] != "" :: m[id]
  {
    ghost var fields := script.CurrentFields();
    assert script.nextShown by {
      assert script.Shown() == EmbedRuntime.ControlsFor(script.currentStep, |script.config.steps|);
    }
    widget.HandleNext();
    script.NextStep();
    if UniqueIds(fields) {
      RuntimesRecordSameErrors(fields, script.formData, script.isNaN);
    }
  }

  /**
   * On the same step the widget renders the controls the script shows:
   * Previous past the first step, Next before the last, Submit on the last,
   * and the progress highlighted up to the current step.
   */
  lemma SameControls(widget: Widget.FormWidget)
    requires widget.Valid()
    ensures var c := EmbedRuntime.ControlsFor(widget.currentStep, |widget.form.steps|);
            && (widget.PreviousShown() <==> c.previous)
            && (widget.NextShown() <==> c.next)
            && (!widget.NextShown() <==> c.submit)
            && forall i :: 0 <= i < |widget.form.steps| ==> (widget.ProgressActive(i) <==> c.progress[i])
  {
  }
}
