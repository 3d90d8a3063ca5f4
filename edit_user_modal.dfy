/**
 * The edit dialog of the detail page: the form's validation schema, the
 * values it starts from, and what a submit or a cancel sets off.
 */
module EditUserModal {
  import opened Outcomes
  import opened UserTypes

  /** The three form fields, as the inputs hold them (status is the select's string value). */
  datatype FormData = FormData(firstName: string, lastName: string, status: string)

  datatype FormError = FirstNameTooShort | LastNameTooShort | InvalidStatus

  const MinNameLength := 2

  /** The message shown under a field; the status message is the schema library's own and is not modelled. */
  function Message(e: FormError): (m: Option<string>)
    ensures m.None? <==> e == InvalidStatus
    ensures e == FirstNameTooShort ==> m == Some("First name must be at least 2 characters")
    ensures e == LastNameTooShort ==> m == Some("Last name must be at least 2 characters")
  {
    match e
    case FirstNameTooShort => Some("First name must be at least 2 characters")
    case LastNameTooShort => Some("Last name must be at least 2 characters")
    case InvalidStatus => None
  }

  /** The select's value for a status. */
  function StatusName(s: Status): string {
    match s
    case Active => "active"
    case Inactive => "inactive"
  }

  /** The schema's enum check: only the two status names parse. */
  function ParseStatus(text: string): (r: Option<Status>)
    ensures r.Some? <==> text == "active" || text == "inactive"
    ensures r.Some? ==> StatusName(r.value) == text
  {
    if text == "active" then Some(Active)
    else if text == "inactive" then Some(Inactive)
    else None
  }

  lemma StatusNameRoundTrip(s: Status)
    ensures ParseStatus(StatusName(s)) == Some(s)
  {
  }

  /** The schema, as a predicate. */
  predicate Valid(form: FormData) {
    && |form.firstName| >= MinNameLength
    && |form.lastName| >= MinNameLength
    && (form.status == "active" || form.status == "inactive")
  }

  /** Every field check that fails, in field order. */
  function Errors(form: FormData): (r: seq<FormError>)
    ensures r == [] <==> Valid(form)
    ensures FirstNameTooShort in r <==> |form.firstName| < MinNameLength
    ensures LastNameTooShort in r <==> |form.lastName| < MinNameLength
    ensures InvalidStatus in r <==> ParseStatus(form.status).None?
    ensures forall i, j :: 0 <= i < j < |r| ==> r[i] != r[j]
  {
    (if |form.firstName| < MinNameLength then [FirstNameTooShort] else [])
    + (if |form.lastName| < MinNameLength then [LastNameTooShort] else [])
    + (if ParseStatus(form.status).None? then [InvalidStatus] else [])
  }

  /** The form opens on the user's current names and status. */
  function DefaultValues(user: UserWithStatus): (f: FormData)
    ensures f.firstName == user.firstName && f.lastName == user.lastName
    ensures ParseStatus(f.status) == Some(user.status)
  {
    FormData(user.firstName, user.lastName, StatusName(user.status))
  }

  /** Opening and saving without an edit passes exactly when both stored names are long enough. */
  lemma DefaultsValidIff(user: UserWithStatus)
    ensures Valid(DefaultValues(user)) <==> |user.firstName| >= MinNameLength && |user.lastName| >= MinNameLength
  {
  }

  /** The partial user handed to `onSave`: the three form fields and nothing else. */
  function FormPatch(form: FormData): (p: UserPatch)
    requires Valid(form)
    ensures p.firstName == Some(form.firstName) && p.lastName == Some(form.lastName)
    ensures p.status.Some? && StatusName(p.status.value) == form.status
    ensures p.id.None? && p.email.None? && p.avatar.None?
    ensures p.createdDaysAgo.None? && p.lastActiveDaysAgo.None?
  {
    UserPatch(None, None, Some(form.firstName), Some(form.lastName), None, ParseStatus(form.status), None, None)
  }

  /** What the dialog asks its parent to do. */
  datatype Effect = Save(patch: UserPatch) | Close

  /**
   * A submit: an invalid form only shows its errors; a valid one saves the
   * three fields and then closes the dialog.
   */
  function OnSubmit(form: FormData): (r: seq<Effect>)
    ensures r == [] <==> !Valid(form)
    ensures r != [] ==> |r| == 2 && r[0].Save? && r[1] == Close
    ensures r != [] ==> r[0].patch == FormPatch(form)
  {
    if Valid(form) then [Save(FormPatch(form)), Close] else []
  }

  /** Cancel closes without saving. */
  function OnCancel(): (r: seq<Effect>)
    ensures forall e :: e in r ==> !e.Save?
    ensures Close in r
  {
    [Close]
  }

  /** No submit ever asks to change the id, email, avatar or the dates. */
  lemma SubmitNeverTouchesIdentity(form: FormData, e: Effect)
    requires e in OnSubmit(form) && e.Save?
    ensures e.patch.id.None? && e.patch.email.None? && e.patch.avatar.None?
    ensures e.patch.createdDaysAgo.None? && e.patch.lastActiveDaysAgo.None?
  {
  }
}
