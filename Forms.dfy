/**
 * The two modal forms of the day-3 script: "Add New Patient" and "New
 * Appointment". Each `save()` handler strips the entry texts, checks them in
 * a fixed order, and at the first failure writes one message into the error
 * label and moves the focus to the offending entry. When every check passes
 * it builds a flat record, hands it to the caller's `on_save` when there is
 * one, and destroys the dialog. Cancel destroys the dialog without saving.
 */
module Forms {
  import opened Text
  import opened Wrappers
  import opened DateFormat

  /** The entries a message can point at. */
  datatype Field = FullName | Age | Phone | Email | PatientName | Doctor | DateEntry | TimeEntry

  datatype FormError = FormError(field: Field, message: string)

  datatype Result<T> = Ok(value: T) | Err(error: FormError)

  /** The dict the patient dialog hands to `on_save`. */
  datatype Patient = Patient(name: string, age: nat, phone: string, email: string, gender: string)

  /** The dict the appointment dialog hands to `on_save`. */
  datatype Appointment = Appointment(patient: string, doctor: string, date: string, time: string, status: string)

  /** Every error label starts with a warning sign and two spaces. */
  const Warning: string := "\U{26A0}  "

  const NameRequired := FormError(FullName, "Full Name is required.")
  const AgeNotNumber := FormError(Age, "Age must be a number.")
  const PatientRequired := FormError(PatientName, "Patient Name is required.")
  const DoctorRequired := FormError(Doctor, "Doctor is required.")
  const DateMalformed := FormError(DateEntry, "Date must be in YYYY-MM-DD format.")

  /** The gender drop-down starts on a value that is not one of its choices. */
  const GenderUnset := "Select"
  const GenderChoices: seq<string> := ["Male", "Female", "Other"]
  const StatusDefault := "Scheduled"
  const StatusChoices: seq<string> := ["Scheduled", "Completed", "Cancelled"]
  const TimeDefault := "09:00"

  /** The checks of the patient `save()`, in order, on the raw entry texts. */
  function ValidatePatient(name: string, age: string, phone: string, email: string, gender: string): (r: Result<Patient>)
    ensures r.Ok? ==> r.value.name != [] && r.value.gender == gender
  {
    var n, a := Strip(name), Strip(age);
    if n == [] then Err(NameRequired)
    else if !IsDigits(a) then Err(AgeNotNumber)
    else Ok(Patient(n, DecimalValue(a), Strip(phone), Strip(email), gender))
  }

  /** The checks of the appointment `save()`, in order, on the raw entry texts. */
  function ValidateAppointment(patient: string, doctor: string, date: string, time: string, status: string): (r: Result<Appointment>)
    ensures r.Ok? ==> r.value.patient != [] && r.value.doctor != [] && DateAccepted(r.value.date)
  {
    var p, d, dt := Strip(patient), Strip(doctor), Strip(date);
    if p == [] then Err(PatientRequired)
    else if d == [] then Err(DoctorRequired)
    else if !DateAccepted(dt) then Err(DateMalformed)
    else Ok(Appointment(p, d, dt, Strip(time), status))
  }

  /** A blank name is reported whatever the age says: the name check comes first. */
  lemma PatientNameChecked(name: string, age: string, phone: string, email: string, gender: string)
    ensures ValidatePatient(name, age, phone, email, gender) == Err(NameRequired) <==> AllSpace(name)
  {
    StripEmptyIffAllSpace(name);
  }

  /** With a name present, an age that is not all digits after stripping is the one error. */
  lemma PatientAgeChecked(name: string, age: string, phone: string, email: string, gender: string)
    ensures ValidatePatient(name, age, phone, email, gender) == Err(AgeNotNumber)
        <==> !AllSpace(name) && !IsDigits(Strip(age))
  {
    StripEmptyIffAllSpace(name);
  }

  /**
   * A patient is saved exactly when the name holds a non-space character and
   * the stripped age is all digits; the record holds the stripped texts, the
   * number the age reads as, and the gender as chosen (`Select` if never
   * touched).
   */
  lemma PatientSaved(name: string, age: string, phone: string, email: string, gender: string)
    ensures ValidatePatient(name, age, phone, email, gender).Ok?
        <==> !AllSpace(name) && IsDigits(Strip(age))
    ensures ValidatePatient(name, age, phone, email, gender).Ok? ==>
      var p := ValidatePatient(name, age, phone, email, gender).value;
      && p.name == Strip(name) && p.phone == Strip(phone) && p.email == Strip(email)
      && p.gender == gender
      && DecimalValue(Strip(age)) == p.age
      && Strip(p.name) == p.name
  {
    StripEmptyIffAllSpace(name);
    StripIdempotent(name);
  }

  /** The failing check that comes first decides the appointment message. */
  lemma AppointmentCheckOrder(patient: string, doctor: string, date: string, time: string, status: string)
    ensures var r := ValidateAppointment(patient, doctor, date, time, status);
      && (AllSpace(patient) ==> r == Err(PatientRequired))
      && (!AllSpace(patient) && AllSpace(doctor) ==> r == Err(DoctorRequired))
      && (!AllSpace(patient) && !AllSpace(doctor) && !DateAccepted(Strip(date)) ==> r == Err(DateMalformed))
      && (r.Ok? <==> !AllSpace(patient) && !AllSpace(doctor) && DateAccepted(Strip(date)))
  {
    StripEmptyIffAllSpace(patient);
    StripEmptyIffAllSpace(doctor);
  }

  /** The saved appointment holds the stripped texts unchanged and the chosen status. */
  lemma AppointmentSaved(patient: string, doctor: string, date: string, time: string, status: string)
    requires ValidateAppointment(patient, doctor, date, time, status).Ok?
    ensures ValidateAppointment(patient, doctor, date, time, status).value
      == Appointment(Strip(patient), Strip(doctor), Strip(date), Strip(time), status)
    ensures ParseDate(Strip(date)).Some?
  {
  }

  /** The time entry is never checked: whatever it holds, the outcome is the same, up to the time in the record. */
  lemma TimeNeverChecked(patient: string, doctor: string, date: string, t1: string, t2: string, status: string)
    ensures var r1, r2 := ValidateAppointment(patient, doctor, date, t1, status), ValidateAppointment(patient, doctor, date, t2, status);
      && r1.Ok? == r2.Ok?
      && (r1.Err? ==> r1.error == r2.error)
      && (r1.Ok? ==> r1.value.(time := Strip(t2)) == r2.value)
  {
  }

  lemma StripOfUnpadded(s: string)
    requires s != [] && !IsSpace(s[0]) && !IsSpace(s[|s| - 1])
    ensures Strip(s) == s
  {
    assert TrimStart(s) == s;
  }

  /**
   * The date pre-filled from today's date passes the check, so a fresh
   * appointment form with a patient and a doctor typed in saves at once with
   * the defaults: that date, time `09:00`, status `Scheduled`.
   */
  lemma FreshAppointmentSaves(patient: string, doctor: string, today: Date)
    requires ValidDate(today)
    requires !AllSpace(patient) && !AllSpace(doctor)
    ensures ValidateAppointment(patient, doctor, IsoFormat(today), TimeDefault, StatusDefault)
      == Ok(Appointment(Strip(patient), Strip(doctor), IsoFormat(today), TimeDefault, StatusDefault))
  {
    var s := IsoFormat(today);
    assert s[0] == Pad4(today.year)[0] && s[|s| - 1] == Pad2(today.day)[1];
    StripOfUnpadded(s);
    StripOfUnpadded(TimeDefault);
    IsoFormatRoundTrip(today);
    StripEmptyIffAllSpace(patient);
    StripEmptyIffAllSpace(doctor);
  }

  /** The worked example: name `Jane Doe`, age `30`, nothing else touched. */
  lemma JaneDoeSaved()
    ensures ValidatePatient("Jane Doe", "30", "", "", GenderUnset) == Ok(Patient("Jane Doe", 30, "", "", "Select"))
  {
    StripOfUnpadded("Jane Doe");
    StripOfUnpadded("30");
    assert DecimalValue("30") == 30 by {
      assert "30"[..1] == "3" && "3"[..0] == [];
    }
  }

  /** The patient dialog: its entries, the error label, the focus, and what `on_save` has received. */
  class PatientDialog {
    var name: string
    var age: string
    var phone: string
    var email: string
    var gender: string
    var errorText: string
    var focus: Option<Field>
    var isOpen: bool
    /** The records handed to `on_save`, in order. */
    var saved: seq<Patient>
    /** Whether the caller passed an `on_save`. */
    const hasHandler: bool

    /** `on_save` runs at most once, only when supplied, and only as the dialog closes. */
    ghost predicate Valid()
      reads this
    {
      |saved| <= 1 && (isOpen ==> saved == []) && (!hasHandler ==> saved == [])
    }

    /** `open_patient_dialog(parent, on_save)`: empty entries, gender `Select`, no message. */
    constructor (hasHandler: bool)
      ensures Valid() && isOpen && this.hasHandler == hasHandler
      ensures name == age == phone == email == errorText == [] && gender == GenderUnset
      ensures focus == None && saved == []
    {
      this.hasHandler := hasHandler;
      name, age, phone, email, errorText := [], [], [], [], [];
      gender := GenderUnset;
      focus := None;
      isOpen := true;
      saved := [];
    }

    /** The user replaces the text of one of the four entries. */
    method Edit(field: Field, text: string)
      requires isOpen && field in {FullName, Age, Phone, Email}
      modifies this
      ensures name == (if field == FullName then text else old(name))
      ensures age == (if field == Age then text else old(age))
      ensures phone == (if field == Phone then text else old(phone))
      ensures email == (if field == Email then text else old(email))
      ensures gender == old(gender) && errorText == old(errorText) && focus == Some(field)
      ensures isOpen && saved == old(saved)
    {
      match field {
        case FullName => name := text;
        case Age => age := text;
        case Phone => phone := text;
        case Email => email := text;
      }
      focus := Some(field);
    }

    /** The user picks a gender from the drop-down. */
    method ChooseGender(choice: string)
      requires isOpen && choice in GenderChoices
      modifies this`gender
      ensures gender == choice
    {
      gender := choice;
    }

    /** `save()`: the first failing check sets the label and the focus; success hands the record over and closes. */
    method Save()
      requires Valid() && isOpen
      modifies this
      ensures Valid()
      ensures name == old(name) && age == old(age) && phone == old(phone) && email == old(email) && gender == old(gender)
      ensures var r := ValidatePatient(old(name), old(age), old(phone), old(email), old(gender));
        && (r.Err? ==>
              isOpen && saved == old(saved) && errorText == Warning + r.error.message && focus == Some(r.error.field))
        && (r.Ok? ==>
              !isOpen && saved == old(saved) + (if hasHandler then [r.value] else [])
              && errorText == old(errorText) && focus == old(focus))
    {
      var n := Strip(name);
      var a := Strip(age);
      if n == [] {
        errorText := Warning + NameRequired.message;
        focus := Some(FullName);
        return;
      }
      if !IsDigits(a) {
        errorText := Warning + AgeNotNumber.message;
        focus := Some(Age);
        return;
      }
      var patient := Patient(n, DecimalValue(a), Strip(phone), Strip(email), gender);
      if hasHandler {
        saved := saved + [patient];
      }
      isOpen := false;
    }

    /** The Cancel button: `dialog.destroy`, whatever the entries hold. */
    method Cancel()
      requires Valid() && isOpen
      modifies this`isOpen
      ensures Valid() && !isOpen
    {
      isOpen := false;
    }
  }

  /** The appointment dialog: its entries, the status drop-down, the error label, the focus, and what `on_save` has received. */
  class AppointmentDialog {
    var patient: string
    var doctor: string
    var date: string
    var time: string
    var status: string
    var errorText: string
    var focus: Option<Field>
    var isOpen: bool
    var saved: seq<Appointment>
    const hasHandler: bool

    ghost predicate Valid()
      reads this
    {
      |saved| <= 1 && (isOpen ==> saved == []) && (!hasHandler ==> saved == [])
    }

    /**
     * `open_appointment_dialog(parent, on_save)`: the date entry pre-filled
     * with today's date (the clock is the parameter `today`), the time with
     * `09:00`, the status on `Scheduled`.
     */
    constructor (hasHandler: bool, today: Date)
      requires ValidDate(today) && today.year >= 1000
      ensures Valid() && isOpen && this.hasHandler == hasHandler
      ensures patient == doctor == errorText == [] && date == IsoFormat(today)
      ensures time == TimeDefault && status == StatusDefault
      ensures focus == None && saved == []
    {
      this.hasHandler := hasHandler;
      patient, doctor, errorText := [], [], [];
      date := IsoFormat(today);
      time := TimeDefault;
      status := StatusDefault;
      focus := None;
      isOpen := true;
      saved := [];
    }

    /** The user replaces the text of one of the four entries. */
    method Edit(field: Field, text: string)
      requires isOpen && field in {PatientName, Doctor, DateEntry, TimeEntry}
      modifies this
      ensures patient == (if field == PatientName then text else old(patient))
      ensures doctor == (if field == Doctor then text else old(doctor))
      ensures date == (if field == DateEntry then text else old(date))
      ensures time == (if field == TimeEntry then text else old(time))
      ensures status == old(status) && errorText == old(errorText) && focus == Some(field)
      ensures isOpen && saved == old(saved)
    {
      match field {
        case PatientName => patient := text;
        case Doctor => doctor := text;
        case DateEntry => date := text;
        case TimeEntry => time := text;
      }
      focus := Some(field);
    }

    /** The user picks a status from the drop-down. */
    method ChooseStatus(choice: string)
      requires isOpen && choice in StatusChoices
      modifies this`status
      ensures status == choice
    {
      status := choice;
    }

    /** `save()`: patient, then doctor, then the date; success hands the record over and closes. */
    method Save()
      requires Valid() && isOpen
      modifies this
      ensures Valid()
      ensures patient == old(patient) && doctor == old(doctor) && date == old(date) && time == old(time) && status == old(status)
      ensures var r := ValidateAppointment(old(patient), old(doctor), old(date), old(time), old(status));
        && (r.Err? ==>
              isOpen && saved == old(saved) && errorText == Warning + r.error.message && focus == Some(r.error.field))
        && (r.Ok? ==>
              !isOpen && saved == old(saved) + (if hasHandler then [r.value] else [])
              && errorText == old(errorText) && focus == old(focus))
    {
      var p := Strip(patient);
      var d := Strip(doctor);
      var dt := Strip(date);
      var t := Strip(time);
      if p == [] {
        errorText := Warning + PatientRequired.message;
        focus := Some(PatientName);
        return;
      }
      if d == [] {
        errorText := Warning + DoctorRequired.message;
        focus := Some(Doctor);
        return;
      }
      if ParseDate(dt).None? {
        errorText := Warning + DateMalformed.message;
        focus := Some(DateEntry);
        return;
      }
      var appointment := Appointment(p, d, dt, t, status);
      if hasHandler {
        saved := saved + [appointment];
      }
      isOpen := false;
    }

    /** The Cancel button: `dialog.destroy`, whatever the entries hold. */
    method Cancel()
      requires Valid() && isOpen
      modifies this`isOpen
      ensures Valid() && !isOpen
    {
      isOpen := false;
    }
  }

  /**
   * A patient dialog whose first save fails on the name keeps its entries and
   * stays open; once the name is typed the next save delivers exactly one
   * record and closes.
   */
  method RetryAfterMissingName() returns (d: PatientDialog)
    ensures !d.isOpen && d.saved == [Patient("Jane Doe", 30, "", "", "Select")]
  {
    d := new PatientDialog(true);
    d.Edit(Age, "30");
    StripEmptyIffAllSpace([]);
    d.Save();
    assert d.isOpen && d.errorText == Warning + "Full Name is required.";
    d.Edit(FullName, "Jane Doe");
    JaneDoeSaved();
    d.Save();
  }
}
