/** The event editor of src/app/pages/admin/EventManagement.tsx without its
    rendering: loading the form, field updates, the ordered validation chain and
    the gate in front of `updateEventData`. */
module EventPage {

  import opened Basics
  import opened Strings
  import opened Schema
  import AdminApi

  type EventForm = AdminApi.EventData

  /** `defaultEventData`: every field empty. */
  const DefaultEventData: EventForm := AdminApi.EventData("", "", "", "", "", "", "", "")

  /** The `name` attribute of the input that changed. */
  datatype EventField =
    | CoupleName | WeddingDate | AkadTime | AkadLocation | AkadAddress
    | ResepsiTime | ResepsiLocation | ResepsiAddress

  function FieldValue(d: EventForm, field: EventField): string {
    match field
    case CoupleName => d.coupleName
    case WeddingDate => d.weddingDate
    case AkadTime => d.akadTime
    case AkadLocation => d.akadLocation
    case AkadAddress => d.akadAddress
    case ResepsiTime => d.resepsiTime
    case ResepsiLocation => d.resepsiLocation
    case ResepsiAddress => d.resepsiAddress
  }

  /** `handleChange(e)`: `{ ...eventData, [e.target.name]: e.target.value }`. */
  function HandleChange(d: EventForm, field: EventField, value: string): (r: EventForm)
    ensures FieldValue(r, field) == value
    ensures forall other :: other != field ==> FieldValue(r, other) == FieldValue(d, other)
  {
    match field
    case CoupleName => d.(coupleName := value)
    case WeddingDate => d.(weddingDate := value)
    case AkadTime => d.(akadTime := value)
    case AkadLocation => d.(akadLocation := value)
    case AkadAddress => d.(akadAddress := value)
    case ResepsiTime => d.(resepsiTime := value)
    case ResepsiLocation => d.(resepsiLocation := value)
    case ResepsiAddress => d.(resepsiAddress := value)
  }

  // ---- validateForm ----

  /** The checks in the order `validateForm` runs them: the field, whether its
      value is trimmed first, and the message shown when it fails. */
  datatype Check = Check(field: EventField, trimmed: bool, message: string)

  const Checks: seq<Check> := [
    Check(CoupleName, true, "Nama pasangan wajib diisi"),
    Check(WeddingDate, false, "Tanggal pernikahan wajib diisi"),
    Check(AkadTime, true, "Waktu akad wajib diisi"),
    Check(AkadLocation, true, "Lokasi akad wajib diisi"),
    Check(AkadAddress, true, "Alamat akad wajib diisi"),
    Check(ResepsiTime, true, "Waktu resepsi wajib diisi"),
    Check(ResepsiLocation, true, "Lokasi resepsi wajib diisi"),
    Check(ResepsiAddress, true, "Alamat resepsi wajib diisi")
  ]

  /** A check fails on an empty value, or on a blank one when it trims. */
  predicate Fails(d: EventForm, c: Check) {
    if c.trimmed then IsBlank(FieldValue(d, c.field)) else FieldValue(d, c.field) == ""
  }

  /** `validateForm()`: `None` when every check passes, otherwise the message of
      the check that stops the chain. */
  function ValidateForm(d: EventForm): (error: Option<string>)
  {
    if IsBlank(d.coupleName) then Some("Nama pasangan wajib diisi")
    else if d.weddingDate == "" then Some("Tanggal pernikahan wajib diisi")
    else if IsBlank(d.akadTime) then Some("Waktu akad wajib diisi")
    else if IsBlank(d.akadLocation) then Some("Lokasi akad wajib diisi")
    else if IsBlank(d.akadAddress) then Some("Alamat akad wajib diisi")
    else if IsBlank(d.resepsiTime) then Some("Waktu resepsi wajib diisi")
    else if IsBlank(d.resepsiLocation) then Some("Lokasi resepsi wajib diisi")
    else if IsBlank(d.resepsiAddress) then Some("Alamat resepsi wajib diisi")
    else None
  }

  /** The form is valid exactly when no check fails. */
  lemma ValidIffNoCheckFails(d: EventForm)
    ensures ValidateForm(d).None? <==> forall k :: 0 <= k < |Checks| ==> !Fails(d, Checks[k])
    ensures ValidateForm(d).None? <==>
              && !IsBlank(d.coupleName) && d.weddingDate != ""
              && !IsBlank(d.akadTime) && !IsBlank(d.akadLocation) && !IsBlank(d.akadAddress)
              && !IsBlank(d.resepsiTime) && !IsBlank(d.resepsiLocation) && !IsBlank(d.resepsiAddress)
  {
    assert Fails(d, Checks[0]) == IsBlank(d.coupleName);
    assert Fails(d, Checks[1]) == (d.weddingDate == "");
    assert Fails(d, Checks[2]) == IsBlank(d.akadTime);
    assert Fails(d, Checks[3]) == IsBlank(d.akadLocation);
    assert Fails(d, Checks[4]) == IsBlank(d.akadAddress);
    assert Fails(d, Checks[5]) == IsBlank(d.resepsiTime);
    assert Fails(d, Checks[6]) == IsBlank(d.resepsiLocation);
    assert Fails(d, Checks[7]) == IsBlank(d.resepsiAddress);
  }

  /** The reported message is that of the first failing check. */
  lemma ReportsFirstFailure(d: EventForm, k: nat)
    requires k < |Checks| && Fails(d, Checks[k])
    requires forall j :: 0 <= j < k ==> !Fails(d, Checks[j])
    ensures ValidateForm(d) == Some(Checks[k].message)
  {
    if k > 0 { assert !Fails(d, Checks[0]); }
    if k > 1 { assert !Fails(d, Checks[1]); }
    if k > 2 { assert !Fails(d, Checks[2]); }
    if k > 3 { assert !Fails(d, Checks[3]); }
    if k > 4 { assert !Fails(d, Checks[4]); }
    if k > 5 { assert !Fails(d, Checks[5]); }
    if k > 6 { assert !Fails(d, Checks[6]); }
  }

  /** The date is the one field not trimmed: a date of spaces passes its check. */
  lemma BlankDatePasses(d: EventForm)
    requires d.weddingDate == " "
    requires !IsBlank(d.coupleName) && !IsBlank(d.akadTime) && !IsBlank(d.akadLocation) && !IsBlank(d.akadAddress)
    requires !IsBlank(d.resepsiTime) && !IsBlank(d.resepsiLocation) && !IsBlank(d.resepsiAddress)
    ensures ValidateForm(d).None?
    ensures IsBlank(d.weddingDate)
  {
  }

  // ---- loadEventData and handleSubmit ----

  /** The part of the page state the handlers change. */
  datatype EventPageState = EventPageState(form: EventForm, hasData: bool)

  /** `loadEventData()`: `loaded` is what `getEventData` returned, `threw` a
      thrown error (then `hasData` is left as it was). */
  function LoadEventData(st: EventPageState, loaded: Option<AdminApi.EventData>, threw: bool): (r: EventPageState)
    ensures threw ==> r == st.(form := DefaultEventData)
    ensures !threw ==> r.hasData == loaded.Some?
    ensures !threw && loaded.Some? ==> r.form == loaded.value
  {
    if threw then st.(form := DefaultEventData)
    else match loaded
      case Some(d) => EventPageState(d, true)
      case None => EventPageState(DefaultEventData, false)
  }

  /** The object `updateEventData` receives: every field present. */
  function AsInput(d: EventForm): AdminApi.EventDataInput {
    AdminApi.EventDataInput(Some(d.coupleName), Some(d.weddingDate), Some(d.akadTime), Some(d.akadLocation),
                            Some(d.akadAddress), Some(d.resepsiTime), Some(d.resepsiLocation), Some(d.resepsiAddress))
  }

  /** The gate in `handleSubmit`: `updateEventData(eventData)` is called, for the
      default slug, only when validation passes. */
  function SubmitCall(d: EventForm): (call: Option<AdminApi.EventDataInput>)
    ensures call.Some? <==> ValidateForm(d).None?
    ensures call.Some? ==> call.value == AsInput(d)
  {
    if ValidateForm(d).None? then Some(AsInput(d)) else None
  }

  /** `handleSubmit` on the page state: only a successful save sets `hasData`. */
  function HandleSubmit(st: EventPageState, success: bool): (r: EventPageState)
    ensures r.form == st.form
    ensures r.hasData <==> st.hasData || (SubmitCall(st.form).Some? && success)
  {
    if SubmitCall(st.form).Some? && success then st.(hasData := true) else st
  }

  /** A submitted form reaches the wedding with the default slug as it was typed:
      its couple name and date, and the akad rows' time, location, address and date. */
  lemma SubmittedFormReachesWedding(s: DbState, d: EventForm, w: Wedding)
    requires SubmitCall(d).Some?
    requires AdminApi.WeddingBySlug(s, AdminApi.DefaultSlug) == Some(w)
    ensures var (t, ok) := AdminApi.UpdateEventDataSpec(s, SubmitCall(d).value, None, false, false, false, {});
      && ok
      && (forall i :: 0 <= i < |t.weddings| && s.weddings[i].id == w.id ==>
            t.weddings[i].coupleName == d.coupleName && t.weddings[i].weddingDate == d.weddingDate)
      && (forall i :: 0 <= i < |t.events| && s.events[i].weddingId == w.id && s.events[i].eventType == "akad" ==>
            t.events[i].time == d.akadTime && t.events[i].location == d.akadLocation
            && t.events[i].address == d.akadAddress && t.events[i].date == d.weddingDate)
  {
  }
}
