/**
 * The course creation dialog: a form that starts empty, the edits, and a
 * submit that hands the request to the page and then always resets the form
 * and closes.
 */
module AddCourseDialog {
  import opened Wrappers
  import opened JsValues
  import opened CourseForm

  class Dialog {
    var formData: Form
    var closeCount: nat

    constructor()
      ensures formData == INITIAL_FORM && closeCount == 0
    {
      formData, closeCount := INITIAL_FORM, 0;
    }

    /** `handleChangeField`. */
    method ChangeField(name: string, value: string)
      modifies this`formData
      ensures formData == CourseForm.ChangeField(old(formData), name, value)
    {
      formData := CourseForm.ChangeField(formData, name, value);
    }

    /** `handleChangeProfessors`: the picked staff, in picking order. */
    method ChangeProfessors(value: seq<UserRecord>)
      modifies this`formData
      ensures formData == old(formData).(professors := value)
    {
      formData := formData.(professors := value);
    }

    /** `handleChangeAssistants`. */
    method ChangeAssistants(value: seq<UserRecord>)
      modifies this`formData
      ensures formData == old(formData).(assistants := value)
    {
      formData := formData.(assistants := value);
    }

    /** `resetAndClose`, also run when the dialog is dismissed: the form is emptied and `onClose` called. */
    method ResetAndClose()
      modifies this
      ensures formData == INITIAL_FORM && closeCount == old(closeCount) + 1
    {
      formData := INITIAL_FORM;
      closeCount := closeCount + 1;
    }

    /**
     * `handleSubmit`: `onAdd` receives the payload of the form as it was, then
     * the form is emptied and the dialog closed, whatever `onAdd` does.
     */
    method Submit(toNumber: string -> Option<int>) returns (added: CoursePayload)
      modifies this
      ensures added == Payload(old(formData), toNumber)
      ensures added.professorIds == Ids(old(formData).professors)
      ensures formData == INITIAL_FORM && closeCount == old(closeCount) + 1
    {
      added := Payload(formData, toNumber);
      ResetAndClose();
    }
  }
}
