/** The RSVP form of src/app/pages/guest/RSVP.tsx without its rendering: field
    updates, validation, the payload sent and the choice between the global and
    the multi-tenant `submitRSVP`. */
module RsvpPage {

  import opened Basics
  import opened Strings
  import opened Schema
  import TenantApi

  /** The form fields, all strings as the inputs deliver them. */
  datatype RsvpForm = RsvpForm(name: string, email: string, phone: string, attendance: string,
                               guestCount: string, message: string)

  const InitialForm := RsvpForm("", "", "", "", "1", "")

  /** The `name` attribute of the input that changed. */
  datatype FormField = NameField | EmailField | PhoneField | AttendanceField | GuestCountField | MessageField

  function FieldValue(f: RsvpForm, field: FormField): string {
    match field
    case NameField => f.name
    case EmailField => f.email
    case PhoneField => f.phone
    case AttendanceField => f.attendance
    case GuestCountField => f.guestCount
    case MessageField => f.message
  }

  /** `handleChange(e)`: `{ ...formData, [e.target.name]: e.target.value }`. */
  function HandleChange(f: RsvpForm, field: FormField, value: string): (r: RsvpForm)
    ensures FieldValue(r, field) == value
    ensures forall other :: other != field ==> FieldValue(r, other) == FieldValue(f, other)
  {
    match field
    case NameField => f.(name := value)
    case EmailField => f.(email := value)
    case PhoneField => f.(phone := value)
    case AttendanceField => f.(attendance := value)
    case GuestCountField => f.(guestCount := value)
    case MessageField => f.(message := value)
  }

  /** Changing a field to the value it already has changes nothing, and the last
      of two changes to one field wins. */
  lemma HandleChangeLastWins(f: RsvpForm, field: FormField, v1: string, v2: string)
    ensures HandleChange(f, field, FieldValue(f, field)) == f
    ensures HandleChange(HandleChange(f, field, v1), field, v2) == HandleChange(f, field, v2)
  {
  }

  // ---- handleSubmit ----

  const NameRequired := "Nama lengkap wajib diisi"
  const AttendanceRequired := "Konfirmasi kehadiran wajib diisi"

  /** Which `submitRSVP` is called: the multi-tenant one when a slug is given. */
  datatype RsvpApi = GlobalApi | MultiTenantApi

  /** What `handleSubmit` does before awaiting: refuse with a message, or send a payload. */
  datatype SubmitStep = Refused(error: string) | Send(api: RsvpApi, payload: TenantApi.RsvpInput)

  /** The `rsvpData` object: the slug (or nothing) as `weddingId`, empty strings as
      null, and a guest count only for attendance "hadir". */
  function Payload(f: RsvpForm, weddingSlug: Option<string>): (p: TenantApi.RsvpInput)
    ensures p.name == f.name && p.attendance == f.attendance
    ensures p.weddingId == NonEmptyOrNone(weddingSlug)
    ensures p.guestCount.Some? <==> f.attendance == "hadir"
    ensures p.guestCount.Some? ==> p.guestCount.value == f.guestCount
    ensures (p.email == None <==> f.email == "") && (p.phone == None <==> f.phone == "")
    ensures p.message == None <==> f.message == ""
  {
    TenantApi.RsvpInput(NonEmptyOrNone(weddingSlug), f.name, NonEmpty(f.email), NonEmpty(f.phone), f.attendance,
                        if f.attendance == "hadir" then Some(f.guestCount) else None, NonEmpty(f.message))
  }

  /** The validation chain of `handleSubmit`, then the payload and the API. */
  function SubmitStepOf(f: RsvpForm, weddingSlug: Option<string>): (r: SubmitStep)
    ensures r.Refused? <==> IsBlank(f.name) || f.attendance == ""
    ensures IsBlank(f.name) ==> r == Refused(NameRequired)
    ensures !IsBlank(f.name) && f.attendance == "" ==> r == Refused(AttendanceRequired)
    ensures r.Send? ==> r.payload == Payload(f, weddingSlug)
    ensures r.Send? ==> (r.api == MultiTenantApi <==> Truthy(weddingSlug))
  {
    TrimEmptyIffBlank(f.name);
    if Trim(f.name) == "" then Refused(NameRequired)
    else if f.attendance == "" then Refused(AttendanceRequired)
    else Send(if Truthy(weddingSlug) then MultiTenantApi else GlobalApi, Payload(f, weddingSlug))
  }

  /** The part of the page state `handleSubmit` changes. */
  datatype RsvpPageState = RsvpPageState(form: RsvpForm, submitted: bool)

  /** `handleSubmit` as a whole: `success` is what the called API reported (a
      thrown error counts as false). Only a sent payload with a successful result
      sets `submitted`; the form itself is left as it was. */
  function HandleSubmit(st: RsvpPageState, weddingSlug: Option<string>, success: bool): (r: RsvpPageState)
    ensures r.form == st.form
    ensures r.submitted <==> st.submitted || (SubmitStepOf(st.form, weddingSlug).Send? && success)
  {
    match SubmitStepOf(st.form, weddingSlug)
    case Refused(_) => st
    case Send(_, _) => if success then st.(submitted := true) else st
  }

  /** The guest row a sent form becomes (both APIs insert the same row): it
      carries the slug itself as its wedding id, a count only for "hadir", and
      null for each empty optional field. */
  lemma SentFormStoredRow(f: RsvpForm, weddingSlug: Option<string>, id: string, now: int)
    requires SubmitStepOf(f, weddingSlug).Send?
    ensures var g := TenantApi.GuestRow(SubmitStepOf(f, weddingSlug).payload, id, now);
      && g.name == f.name && !IsBlank(g.name) && g.attendance == f.attendance && g.attendance != ""
      && g.weddingId == NonEmptyOrNone(weddingSlug)
      && (g.guestCount == if f.attendance == "hadir" then Some(f.guestCount) else None)
      && (g.email == NonEmpty(f.email)) && (g.phone == NonEmpty(f.phone)) && (g.message == NonEmpty(f.message))
  {
  }

  /** The initial form is refused: its name is empty. */
  lemma InitialFormRefused(weddingSlug: Option<string>)
    ensures SubmitStepOf(InitialForm, weddingSlug) == Refused(NameRequired)
  {
    assert IsBlank(InitialForm.name);
  }
}
