/** The task form of `src/components/TaskForm.jsx`: its field values, the per-field error
    messages `validateForm` records, the trimming and reset done on submit, and the error
    clearing done on input. */
module TaskForm {
  import opened Tasks
  import opened Text

  const TitleRequired: string := "Title is required"
  const TitleTooShort: string := "Title must be at least 3 characters long"
  const DescriptionRequired: string := "Description is required"
  const DescriptionTooShort: string := "Description must be at least 5 characters long"

  const MinTitleLength: nat := 3
  const MinDescriptionLength: nat := 5

  /** The `name`s of the form's inputs. */
  datatype Field = TitleField | DescriptionField | PriorityField | CompletedField

  /** An input event: the field it comes from and its new `value` (or `checked`). */
  datatype Change =
    | SetTitle(title: string)
    | SetDescription(description: string)
    | SetPriority(priority: Priority)
    | SetCompleted(completed: bool)

  function FieldOf(c: Change): Field
  {
    match c
    case SetTitle(_) => TitleField
    case SetDescription(_) => DescriptionField
    case SetPriority(_) => PriorityField
    case SetCompleted(_) => CompletedField
  }

  /** `{...prev, [name]: value}`. */
  function Apply(d: TaskData, c: Change): TaskData
  {
    match c
    case SetTitle(v) => d.(title := v)
    case SetDescription(v) => d.(description := v)
    case SetPriority(v) => d.(priority := v)
    case SetCompleted(v) => d.(completed := v)
  }

  /** The initial values, which the form also resets to. */
  const EmptyForm: TaskData := TaskData("", "", Medium, false)

  /** The message `validateForm` records for a field's value: `required` when the trimmed value
      is empty, `tooShort` when it has fewer than `min` UTF-16 code units, none otherwise. */
  function LengthError(value: string, min: nat, required: string, tooShort: string): Option<string>
  {
    var trimmed := Trim(value);
    if trimmed == [] then Some(required)
    else if Utf16Length(trimmed) < min then Some(tooShort)
    else None
  }

  function TitleError(title: string): Option<string>
  {
    LengthError(title, MinTitleLength, TitleRequired, TitleTooShort)
  }

  function DescriptionError(description: string): Option<string>
  {
    LengthError(description, MinDescriptionLength, DescriptionRequired, DescriptionTooShort)
  }

  /** The errors object `validateForm` builds for the form's values. */
  function Errors(d: TaskData): map<Field, string>
  {
    WithError(WithError(map[], TitleField, TitleError(d.title)), DescriptionField, DescriptionError(d.description))
  }

  /** `newErrors[field] = message` when there is a message. */
  function WithError(errors: map<Field, string>, f: Field, message: Option<string>): map<Field, string>
  {
    if message.Some? then errors[f := message.value] else errors
  }

  /** The form passes validation: the errors object has no keys. */
  predicate IsValid(d: TaskData)
  {
    |Errors(d).Keys| == 0
  }

  /** The title rule: "required" exactly when nothing but white space was typed, the length
      message exactly for a non-empty trimmed title of fewer than three code units (the two are
      never both recorded), and no message exactly from three code units on. */
  lemma TitleRule(title: string)
    ensures TitleError(title) == Some(TitleRequired) <==> Trim(title) == []
    ensures TitleError(title) == Some(TitleTooShort) <==> Trim(title) != [] && Utf16Length(Trim(title)) < 3
    ensures TitleError(title) == None <==> Utf16Length(Trim(title)) >= 3
    ensures TitleError(title) in {None, Some(TitleRequired), Some(TitleTooShort)}
  {
    assert TitleRequired != TitleTooShort by {
      assert TitleRequired[6] != TitleTooShort[6];
    }
  }

  /** The description rule, with five code units as the bound. */
  lemma DescriptionRule(description: string)
    ensures DescriptionError(description) == Some(DescriptionRequired) <==> Trim(description) == []
    ensures DescriptionError(description) == Some(DescriptionTooShort) <==>
      Trim(description) != [] && Utf16Length(Trim(description)) < 5
    ensures DescriptionError(description) == None <==> Utf16Length(Trim(description)) >= 5
    ensures DescriptionError(description) in {None, Some(DescriptionRequired), Some(DescriptionTooShort)}
  {
    assert DescriptionRequired != DescriptionTooShort by {
      assert DescriptionRequired[12] != DescriptionTooShort[12];
    }
  }

  /** Only the two text fields can carry an error, each the message of its own rule; the form
      is valid exactly when the trimmed title has at least three and the trimmed description
      at least five UTF-16 code units. */
  lemma ValidIff(d: TaskData)
    ensures Errors(d).Keys <= {TitleField, DescriptionField}
    ensures TitleField in Errors(d) <==> TitleError(d.title).Some?
    ensures TitleField in Errors(d) ==> Errors(d)[TitleField] == TitleError(d.title).value
    ensures DescriptionField in Errors(d) <==> DescriptionError(d.description).Some?
    ensures DescriptionField in Errors(d) ==> Errors(d)[DescriptionField] == DescriptionError(d.description).value
    ensures IsValid(d) <==> Utf16Length(Trim(d.title)) >= 3 && Utf16Length(Trim(d.description)) >= 5
  {
    TitleRule(d.title);
    DescriptionRule(d.description);
    if !IsValid(d) {
      assert TitleField in Errors(d) || DescriptionField in Errors(d);
    }
  }

  /** What `handleSubmit` hands to `onSubmit`: the trimmed text, priority and status as they are. */
  function Trimmed(d: TaskData): TaskData
  {
    TaskData(Trim(d.title), Trim(d.description), d.priority, d.completed)
  }

  /** Submitted data meets the length rules outright (not only after trimming), has no white
      space left to trim, and passes validation again. */
  lemma SubmittedIsValid(d: TaskData)
    requires IsValid(d)
    ensures Utf16Length(Trimmed(d).title) >= MinTitleLength
    ensures Utf16Length(Trimmed(d).description) >= MinDescriptionLength
    ensures Trim(Trimmed(d).title) == Trimmed(d).title
    ensures Trim(Trimmed(d).description) == Trimmed(d).description
    ensures IsValid(Trimmed(d))
  {
    ValidIff(d);
    TrimIdempotent(d.title);
    TrimIdempotent(d.description);
    ValidIff(Trimmed(d));
  }

  /** One field's two checks in `validateForm`, as the statements that assign into `newErrors`:
      the imperative form of `LengthError`, proved to record exactly its message, on which the
      rules are proved. */
  method CheckLength(newErrors: map<Field, string>, f: Field, value: string, min: nat,
                     required: string, tooShort: string)
    returns (updated: map<Field, string>)
    ensures updated == WithError(newErrors, f, LengthError(value, min, required, tooShort))
  {
    updated := newErrors;
    var trimmed := Trim(value);
    if trimmed == [] {
      updated := updated[f := required];
    } else if Utf16Length(trimmed) < min {
      updated := updated[f := tooShort];
    }
  }

  /** The form component's state. */
  class Form {
    var formData: TaskData
    var errors: map<Field, string>
    var isSubmitting: bool
    const isEditing: bool

    /** The `useState` initial values. */
    constructor (isEditing: bool)
      ensures formData == EmptyForm && errors == map[] && !isSubmitting
      ensures this.isEditing == isEditing
    {
      formData := EmptyForm;
      errors := map[];
      isSubmitting := false;
      this.isEditing := isEditing;
    }

    /** The effect on `task`: when a task is given, the form takes its four fields. */
    method SyncWithTask(task: Option<Task>)
      modifies this
      ensures formData == if task.Some?
        then TaskData(task.value.title, task.value.description, task.value.priority, task.value.completed)
        else old(formData)
      ensures errors == old(errors) && isSubmitting == old(isSubmitting)
    {
      if task.Some? {
        var t := task.value;
        formData := TaskData(t.title, t.description, t.priority, t.completed);
      }
    }

    /** `validateForm`: records one message per failing text field and reports whether none
        was recorded. */
    method ValidateForm() returns (valid: bool)
      modifies this
      ensures errors == Errors(formData) && formData == old(formData)
      ensures valid <==> IsValid(formData)
      ensures isSubmitting == old(isSubmitting)
    {
      var newErrors: map<Field, string> := map[];
      newErrors := CheckLength(newErrors, TitleField, formData.title, MinTitleLength, TitleRequired, TitleTooShort);
      newErrors := CheckLength(newErrors, DescriptionField, formData.description, MinDescriptionLength,
        DescriptionRequired, DescriptionTooShort);
      errors := newErrors;
      valid := |newErrors.Keys| == 0;
    }

    /** `handleSubmit`: a form that fails validation submits nothing; otherwise the trimmed data
        is submitted, a new-task form resets to its initial values, and submission ends. */
    method HandleSubmit() returns (submitted: Option<TaskData>)
      modifies this
      ensures submitted.Some? <==> IsValid(old(formData))
      ensures submitted.Some? ==> submitted.value == Trimmed(old(formData))
      ensures errors == Errors(old(formData))
      ensures formData == if submitted.Some? && !isEditing then EmptyForm else old(formData)
      ensures isSubmitting == (submitted.None? && old(isSubmitting))
    {
      var valid := ValidateForm();
      if !valid {
        return None;
      }
      var data := Submit();
      submitted := Some(data);
    }

    /** The part of `handleSubmit` after validation: the trimmed values go to `onSubmit`, a
        new-task form is reset, and `isSubmitting` is set for the duration. */
    method Submit() returns (data: TaskData)
      modifies this
      ensures data == Trimmed(old(formData))
      ensures formData == if isEditing then old(formData) else EmptyForm
      ensures errors == old(errors) && !isSubmitting
    {
      isSubmitting := true;
      data := TaskData(Trim(formData.title), Trim(formData.description), formData.priority, formData.completed);
      if !isEditing {
        formData := EmptyForm;
      }
      isSubmitting := false;
    }

    /** `handleInputChange`: the field takes its new value and loses its error, if it had one;
        the other fields and their errors stay as they were. */
    method HandleInputChange(change: Change)
      modifies this
      ensures formData == Apply(old(formData), change)
      ensures errors == old(errors) - {FieldOf(change)}
      ensures isSubmitting == old(isSubmitting)
    {
      formData := Apply(formData, change);
      var name := FieldOf(change);
      if name in errors {
        errors := errors - {name};
      }
    }
  }

  /** Input changes only the field typed into, and only that field's error can disappear. */
  lemma InputChangesOneField(d: TaskData, errors: map<Field, string>, c: Change, f: Field)
    requires f != FieldOf(c)
    ensures f in errors - {FieldOf(c)} <==> f in errors
    ensures f in errors ==> (errors - {FieldOf(c)})[f] == errors[f]
    ensures FieldOf(c) !in errors - {FieldOf(c)}
    ensures f == TitleField ==> Apply(d, c).title == d.title
    ensures f == DescriptionField ==> Apply(d, c).description == d.description
    ensures f == PriorityField ==> Apply(d, c).priority == d.priority
    ensures f == CompletedField ==> Apply(d, c).completed == d.completed
  {
  }
}
