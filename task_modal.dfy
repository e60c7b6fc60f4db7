/** The task modal's form: the defaults for a new task, the copy of a task
    being edited, the field-by-field edits, and the payload it submits. The
    status and priority inputs are selects, so the form holds them as
    enumeration values. */
module TaskModal {
  import opened Schema

  datatype Form = Form(title: string, description: string, status: Status, priority: Priority, dueDate: string)

  /** `defaultForm`. */
  const DefaultForm := Form("", "", Todo, Medium, "")

  /** The effect run when the modal opens: a copy of the task, a missing due
      date shown as the empty string, or the defaults when there is no task. */
  function FormFor(task: Option<Task>): (f: Form)
    ensures task.None? ==> f == DefaultForm
    ensures task.Some? ==>
      && f.title == task.value.title && f.description == task.value.description
      && f.status == task.value.status && f.priority == task.value.priority
      && f.dueDate == task.value.dueDate.GetOr("")
  {
    match task
    case None => DefaultForm
    case Some(t) => Form(t.title, t.description, t.status, t.priority, t.dueDate.GetOr(""))
  }

  /** `{ ...form, due_date: form.due_date || undefined }`. */
  function SubmitPayload(f: Form): (p: Payload)
    ensures p.title == Some(f.title) && p.description == Some(f.description)
    ensures p.status == Some(f.status) && p.priority == Some(f.priority)
    ensures p.dueDate.None? <==> f.dueDate == ""
    ensures p.dueDate.Some? ==> p.dueDate.value == f.dueDate
  {
    Payload(Some(f.title), Some(f.description), Some(f.status), Some(f.priority),
            if f.dueDate == "" then None else Some(f.dueDate))
  }

  /** Submitting an untouched copy of a task sends back every field of the
      task, except that an empty stored due date is sent as omitted. */
  lemma SubmitUntouchedCopy(t: Task)
    ensures var p := SubmitPayload(FormFor(Some(t)));
      && p.title == Some(t.title) && p.description == Some(t.description)
      && p.status == Some(t.status) && p.priority == Some(t.priority)
      && p.dueDate == (if t.dueDate == Some("") then None else t.dueDate)
  {
  }

  class ModalForm {
    var form: Form

    constructor ()
      ensures form == DefaultForm
    {
      form := DefaultForm;
    }

    /** The `[task, isOpen]` effect. */
    method Open(task: Option<Task>)
      modifies this
      ensures form == FormFor(task)
    {
      form := FormFor(task);
    }

    /** The title input's `onChange`. */
    method SetTitle(v: string)
      modifies this
      ensures form == old(form).(title := v)
    {
      form := form.(title := v);
    }

    /** The description textarea's `onChange`. */
    method SetDescription(v: string)
      modifies this
      ensures form == old(form).(description := v)
    {
      form := form.(description := v);
    }

    /** The status select's `onChange`. */
    method SetStatus(v: Status)
      modifies this
      ensures form == old(form).(status := v)
    {
      form := form.(status := v);
    }

    /** The priority select's `onChange`. */
    method SetPriority(v: Priority)
      modifies this
      ensures form == old(form).(priority := v)
    {
      form := form.(priority := v);
    }

    /** The date input's `onChange`. */
    method SetDueDate(v: string)
      modifies this
      ensures form == old(form).(dueDate := v)
    {
      form := form.(dueDate := v);
    }

    /** `handleSubmit`: the payload handed to `onSubmit`. */
    function Submit(): (p: Payload)
      reads this
      ensures p.title == Some(form.title) && p.description == Some(form.description)
      ensures p.status == Some(form.status) && p.priority == Some(form.priority)
      ensures p.dueDate.None? <==> form.dueDate == ""
      ensures p.dueDate.Some? ==> p.dueDate.value == form.dueDate
    {
      SubmitPayload(form)
    }
  }
}
