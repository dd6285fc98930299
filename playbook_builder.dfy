/** The playbook builder: while recording, each click on an available step appends a copy of it
    to the playbook; steps can be removed by id; a playbook with a non-blank name can be saved,
    which closes the dialog and clears the steps and the name. */
module Playbook {
  import opened JsText

  datatype StepType = Data | Analysis | Prompt

  /** A recorded step (its icon is left out). */
  datatype Step = Step(id: int, kind: StepType, content: string)

  /** A step the user can add; `title` is the source's `label` (a Dafny keyword). */
  datatype AvailableStep = AvailableStep(kind: StepType, title: string, content: string)

  const AvailableSteps: seq<AvailableStep> := [
    AvailableStep(Data, "拉取数据", "拉取比亚迪近三年毛利率数据"),
    AvailableStep(Data, "对比数据", "对比同期碳酸锂价格走势"),
    AvailableStep(Prompt, "AI分析", "结合以上数据，计算比亚迪对上游原材料降价的利润吸收率，并排除汇率影响")
  ]

  /** The palette offers two data steps and one prompt step: no analysis step can be recorded from
      it, although the step type allows one. */
  lemma PaletteKinds()
    ensures |AvailableSteps| == 3
    ensures forall i :: 0 <= i < |AvailableSteps| ==> AvailableSteps[i].kind != Analysis
    ensures AvailableSteps[0].kind == Data && AvailableSteps[1].kind == Data && AvailableSteps[2].kind == Prompt
  {
  }

  /** `steps.filter(s => s.id !== id)`. */
  function WithoutId(steps: seq<Step>, id: int): (r: seq<Step>)
    ensures |r| <= |steps|
    ensures forall s :: s in r <==> s in steps && s.id != id
  {
    if steps == [] then []
    else
      var tail := WithoutId(steps[1..], id);
      assert forall s :: s in steps <==> s == steps[0] || s in steps[1..];
      if steps[0].id != id then [steps[0]] + tail else tail
  }

  /** Filtering works piecewise, so the kept steps stay in their original order. */
  lemma {:induction false} WithoutIdAppend(a: seq<Step>, b: seq<Step>, id: int)
    ensures WithoutId(a + b, id) == WithoutId(a, id) + WithoutId(b, id)
  {
    if a == [] {
      assert a + b == b;
    } else {
      assert (a + b)[1..] == a[1..] + b;
      WithoutIdAppend(a[1..], b, id);
    }
  }

  /** Removing an id no step carries leaves the list as it is. */
  lemma {:induction false} WithoutAbsentId(steps: seq<Step>, id: int)
    requires forall i :: 0 <= i < |steps| ==> steps[i].id != id
    ensures WithoutId(steps, id) == steps
  {
    if steps != [] {
      WithoutAbsentId(steps[1..], id);
    }
  }

  /** Removing the same id twice removes nothing more. */
  lemma WithoutIdIdempotent(steps: seq<Step>, id: int)
    ensures WithoutId(WithoutId(steps, id), id) == WithoutId(steps, id)
  {
    var r := WithoutId(steps, id);
    forall i | 0 <= i < |r| ensures r[i].id != id {
      assert r[i] in r;
    }
    WithoutAbsentId(r, id);
  }

  /** Removing a just-added step whose id no earlier step carries restores the earlier list
      (ids come from a clock and are not guaranteed unique, hence the requirement). */
  lemma AddThenRemove(steps: seq<Step>, s: Step)
    requires forall i :: 0 <= i < |steps| ==> steps[i].id != s.id
    ensures WithoutId(steps + [s], s.id) == steps
  {
    WithoutIdAppend(steps, [s], s.id);
    WithoutAbsentId(steps, s.id);
  }

  class PlaybookBuilder {
    var steps: seq<Step>
    var isRecording: bool
    var playbookName: string
    var showSaveDialog: bool

    constructor ()
      ensures steps == [] && !isRecording && playbookName == "" && !showSaveDialog
    {
      steps, isRecording, playbookName, showSaveDialog := [], false, "", false;
    }

    /** addStep: appends one step built from `step`; `id` stands for `Date.now()`. */
    method AddStep(step: AvailableStep, id: int)
      modifies this
      ensures steps == old(steps) + [Step(id, step.kind, step.content)]
      ensures isRecording == old(isRecording) && playbookName == old(playbookName)
      ensures showSaveDialog == old(showSaveDialog)
    {
      steps := steps + [Step(id, step.kind, step.content)];
    }

    /** A click on the button of the `index`-th available step: adds it only while recording. */
    method ClickAvailableStep(index: nat, id: int)
      requires index < |AvailableSteps|
      modifies this
      ensures var step := AvailableSteps[index];
              steps == if old(isRecording) then old(steps) + [Step(id, step.kind, step.content)] else old(steps)
      ensures isRecording == old(isRecording) && playbookName == old(playbookName)
      ensures showSaveDialog == old(showSaveDialog)
    {
      if isRecording {
        AddStep(AvailableSteps[index], id);
      }
    }

    /** removeStep. */
    method RemoveStep(id: int)
      modifies this
      ensures steps == WithoutId(old(steps), id)
      ensures isRecording == old(isRecording) && playbookName == old(playbookName)
      ensures showSaveDialog == old(showSaveDialog)
    {
      steps := WithoutId(steps, id);
    }

    /** The record button: flips `isRecording` and nothing else. */
    method ToggleRecording()
      modifies this
      ensures isRecording == !old(isRecording)
      ensures steps == old(steps) && playbookName == old(playbookName)
      ensures showSaveDialog == old(showSaveDialog)
    {
      isRecording := !isRecording;
    }

    /** The save-as-template button, which is shown only while there are steps. */
    method OpenSaveDialog()
      modifies this
      ensures showSaveDialog == (old(showSaveDialog) || |old(steps)| > 0)
      ensures steps == old(steps) && isRecording == old(isRecording) && playbookName == old(playbookName)
    {
      if |steps| > 0 {
        showSaveDialog := true;
      }
    }

    /** The cancel button and a click on the backdrop. */
    method CloseSaveDialog()
      modifies this
      ensures !showSaveDialog
      ensures steps == old(steps) && isRecording == old(isRecording) && playbookName == old(playbookName)
    {
      showSaveDialog := false;
    }

    /** Typing in the name field. */
    method EditName(name: string)
      modifies this
      ensures playbookName == name
      ensures steps == old(steps) && isRecording == old(isRecording) && showSaveDialog == old(showSaveDialog)
    {
      playbookName := name;
    }

    /** savePlaybook (its delayed second half taken as immediate): a name made only of whitespace
        changes nothing; any other name closes the dialog and clears the steps and the name. */
    method SavePlaybook()
      modifies this
      ensures AllWhitespace(old(playbookName)) ==>
                steps == old(steps) && playbookName == old(playbookName) && showSaveDialog == old(showSaveDialog)
      ensures !AllWhitespace(old(playbookName)) ==> steps == [] && playbookName == "" && !showSaveDialog
      ensures isRecording == old(isRecording)
    {
      TrimEmptyIffAllWhitespace(playbookName);
      if Trim(playbookName) != "" {
        showSaveDialog := false;
        steps := [];
        playbookName := "";
      }
    }
  }
}
