/**
 The "Add Activity" form: its field updates and the submit handler, whose only
 logic is the guard that refuses to post a form without both times. The outcome
 of the POST is a parameter.
 */
module ActivityForm {
  import opened Wrappers

  /** The form state; every field holds the text of its input element. */
  datatype Form = Form(kind: string, title: string, description: string, startTime: string, endTime: string)

  /** The initial form, and the form after a successful submission. */
  const BlankForm: Form := Form("hobby", "", "", "", "")

  /** The `name` attribute of each input of the form. */
  datatype Field = Kind | Title | Description | StartTime | EndTime

  function Get(form: Form, field: Field): string {
    match field
    case Kind => form.kind
    case Title => form.title
    case Description => form.description
    case StartTime => form.startTime
    case EndTime => form.endTime
  }

  /** `handleChange`: `{ ...newActivity, [e.target.name]: e.target.value }`. */
  function Change(form: Form, field: Field, value: string): (f: Form)
    ensures Get(f, field) == value
    ensures forall other :: other != field ==> Get(f, other) == Get(form, other)
  {
    match field
    case Kind => form.(kind := value)
    case Title => form.(title := value)
    case Description => form.(description := value)
    case StartTime => form.(startTime := value)
    case EndTime => form.(endTime := value)
  }

  /**
   What one submission does: the body of the POST request, if one is sent; the
   form state afterwards; and whether the activity list is fetched again.
   */
  datatype SubmitOutcome = SubmitOutcome(request: Option<Form>, next: Form, refetch: bool)

  /** JavaScript truthiness of a string: only the empty string is falsy. */
  predicate Truthy(s: string) {
    s != []
  }

  /**
   `handleSubmit`: with an empty start or end time, nothing is posted and the
   form stays as it is; otherwise the form is posted as it stands, and when the
   server accepts it the list is fetched again and the form is reset.
   */
  function HandleSubmit(form: Form, serverAccepts: bool): (o: SubmitOutcome)
    ensures o.request == None <==> form.startTime == [] || form.endTime == []
    ensures o.request == None ==> o.next == form && !o.refetch
    ensures o.request != None ==> o.request == Some(form)
    ensures o.refetch <==> o.request != None && serverAccepts
    ensures o.next == if o.refetch then BlankForm else form
  {
    if !Truthy(form.startTime) || !Truthy(form.endTime) then
      SubmitOutcome(None, form, false)
    else if serverAccepts then
      SubmitOutcome(Some(form), BlankForm, true)
    else
      SubmitOutcome(Some(form), form, false)
  }

  /** After a successful submission the reset form cannot be posted again as it is. */
  lemma NoDoubleSubmit(form: Form, serverAccepts: bool, again: bool)
    requires HandleSubmit(form, serverAccepts).refetch
    ensures HandleSubmit(HandleSubmit(form, serverAccepts).next, again).request == None
  {
  }

  /** Whether a request is sent depends on the two times only, not on the other fields. */
  lemma GuardReadsOnlyTimes(f: Form, g: Form, accepts: bool)
    requires f.startTime == g.startTime && f.endTime == g.endTime
    ensures (HandleSubmit(f, accepts).request == None) == (HandleSubmit(g, accepts).request == None)
  {
  }

  /** Once both time inputs have been filled in, submitting sends the form. */
  lemma FilledTimesAreSent(form: Form, start: string, end: string, accepts: bool)
    requires start != [] && end != []
    ensures HandleSubmit(Change(Change(form, StartTime, start), EndTime, end), accepts).request
         == Some(Change(Change(form, StartTime, start), EndTime, end))
  {
    var f := Change(Change(form, StartTime, start), EndTime, end);
    assert Get(f, StartTime) == start;
  }
}
