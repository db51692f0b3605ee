/** Patient records and the per-record helpers of `DentalPatientManager`:
    building a record from the form, merging an edit over a stored record,
    `formatPhone` and `getInitials`. */
module Patients {
  import opened Wrappers
  import opened Seqs
  import opened Text
  import opened Dates

  type Id = string

  /** A stored patient. `createdAt` is the creation timestamp in milliseconds;
      `status` is the text `'active'` or `'inactive'` as stored. */
  datatype Patient = Patient(
    id: Id,
    firstName: string,
    lastName: string,
    dateOfBirth: Option<Date>,
    phone: string,
    email: string,
    address: string,
    medicalHistory: string,
    insuranceProvider: string,
    insuranceNumber: string,
    status: string,
    createdAt: int,
    lastVisit: Option<Date>,
    nextAppointment: Option<Date>)

  /** The raw values of the patient form, as `FormData.get` returns them. */
  datatype PatientForm = PatientForm(
    firstName: string,
    lastName: string,
    dateOfBirth: Option<Date>,
    phone: string,
    email: string,
    address: string,
    medicalHistory: string,
    insuranceProvider: string,
    insuranceNumber: string)

  /** The `patientData` object that a form submission builds: every field of a record except `id`. */
  datatype PatientData = PatientData(
    firstName: string,
    lastName: string,
    dateOfBirth: Option<Date>,
    phone: string,
    email: string,
    address: string,
    medicalHistory: string,
    insuranceProvider: string,
    insuranceNumber: string,
    status: string,
    createdAt: int,
    lastVisit: Option<Date>,
    nextAppointment: Option<Date>)

  const Active: string := "active"

  /** Every free-text field of the record is trimmed. */
  predicate TextFieldsTrimmed(d: PatientData) {
    IsTrimmed(d.firstName) && IsTrimmed(d.lastName) && IsTrimmed(d.phone) &&
    IsTrimmed(d.email) && IsTrimmed(d.address) && IsTrimmed(d.medicalHistory) &&
    IsTrimmed(d.insuranceProvider) && IsTrimmed(d.insuranceNumber)
  }

  /** Every free-text field of the record is the trim of the typed value. */
  predicate TextFieldsFrom(d: PatientData, form: PatientForm) {
    d.firstName == Trim(form.firstName) && d.lastName == Trim(form.lastName) &&
    d.phone == Trim(form.phone) && d.email == Trim(form.email) &&
    d.address == Trim(form.address) && d.medicalHistory == Trim(form.medicalHistory) &&
    d.insuranceProvider == Trim(form.insuranceProvider) &&
    d.insuranceNumber == Trim(form.insuranceNumber)
  }

  /** The data a form submission produces at time `now`: every text field the
      trim of what was typed, the date of birth as entered, status `'active'`,
      no visit and no appointment. */
  function FromForm(form: PatientForm, now: int): (d: PatientData)
    ensures TextFieldsTrimmed(d)
    ensures TextFieldsFrom(d, form)
    ensures d.dateOfBirth == form.dateOfBirth
    ensures d.status == Active && d.createdAt == now
    ensures d.lastVisit.None? && d.nextAppointment.None?
  {
    PatientData(
      Trim(form.firstName), Trim(form.lastName), form.dateOfBirth,
      Trim(form.phone), Trim(form.email), Trim(form.address),
      Trim(form.medicalHistory), Trim(form.insuranceProvider), Trim(form.insuranceNumber),
      Active, now, None, None)
  }

  /** The data of a record, without its id. */
  function DataOf(p: Patient): PatientData {
    PatientData(
      p.firstName, p.lastName, p.dateOfBirth, p.phone, p.email, p.address,
      p.medicalHistory, p.insuranceProvider, p.insuranceNumber,
      p.status, p.createdAt, p.lastVisit, p.nextAppointment)
  }

  /** `patientData.id = id`: the data completed with an id. */
  function WithId(d: PatientData, id: Id): (p: Patient)
    ensures p.id == id && DataOf(p) == d
  {
    Patient(
      id, d.firstName, d.lastName, d.dateOfBirth, d.phone, d.email, d.address,
      d.medicalHistory, d.insuranceProvider, d.insuranceNumber,
      d.status, d.createdAt, d.lastVisit, d.nextAppointment)
  }

  /** `{ ...stored, ...d }`: every field present in `d` overrides the stored one,
      and `d` carries every field but `id`, so only the id survives. */
  function Merge(stored: Patient, d: PatientData): (p: Patient)
    ensures p.id == stored.id
    ensures DataOf(p) == d
  {
    stored.(
      firstName := d.firstName, lastName := d.lastName, dateOfBirth := d.dateOfBirth,
      phone := d.phone, email := d.email, address := d.address,
      medicalHistory := d.medicalHistory, insuranceProvider := d.insuranceProvider,
      insuranceNumber := d.insuranceNumber, status := d.status, createdAt := d.createdAt,
      lastVisit := d.lastVisit, nextAppointment := d.nextAppointment)
  }

  /** A record is determined by its id and its data. */
  lemma RecordIsIdAndData(p: Patient, q: Patient)
    requires p.id == q.id && DataOf(p) == DataOf(q)
    ensures p == q
  {
  }

  /** Merging is giving the new data the old id; the old data is lost entirely. */
  lemma MergeIsWithOldId(stored: Patient, d: PatientData)
    ensures Merge(stored, d) == WithId(d, stored.id)
  {
    RecordIsIdAndData(Merge(stored, d), WithId(d, stored.id));
  }

  /** `formatPhone`: `'N/A'` for an empty phone, `(XXX) XXX-XXXX` when the
      phone holds exactly ten digits, and the phone unchanged otherwise. */
  function FormatPhone(phone: string): (r: string)
    ensures phone == "" ==> r == "N/A"
    ensures phone != "" && |Digits(phone)| != 10 ==> r == phone
    ensures phone != "" && |Digits(phone)| == 10 ==>
      |r| == 14 && r[0] == '(' && r[4] == ')' && r[5] == ' ' && r[9] == '-' &&
      r[1..4] + r[6..9] + r[10..] == Digits(phone)
  {
    if phone == "" then "N/A"
    else
      var cleaned := Digits(phone);
      if |cleaned| == 10 then "(" + cleaned[..3] + ") " + cleaned[3..6] + "-" + cleaned[6..]
      else phone
  }

  /** The punctuation of the `(XXX) XXX-XXXX` layout holds no digit. */
  lemma DigitsOfLayout(a: string, b: string, c: string)
    requires forall i :: 0 <= i < |a| ==> IsDigit(a[i])
    requires forall i :: 0 <= i < |b| ==> IsDigit(b[i])
    requires forall i :: 0 <= i < |c| ==> IsDigit(c[i])
    ensures Digits("(" + a + ") " + b + "-" + c) == a + b + c
  {
    DigitsOfDigits(a);
    DigitsOfDigits(b);
    DigitsOfDigits(c);
    var p1 := "(" + a;
    FilterConcat("(", a, IsDigit);
    assert Digits(p1) == a;
    var p2 := p1 + ") ";
    FilterConcat(p1, ") ", IsDigit);
    assert Digits(p2) == a;
    var p3 := p2 + b;
    FilterConcat(p2, b, IsDigit);
    assert Digits(p3) == a + b;
    var p4 := p3 + "-";
    FilterConcat(p3, "-", IsDigit);
    assert Digits(p4) == a + b;
    FilterConcat(p4, c, IsDigit);
  }

  /** Formatting neither adds nor loses digits: stripping the non-digits of
      the formatted phone gives back the digits of the original. */
  lemma FormatPhoneKeepsDigits(phone: string)
    ensures Digits(FormatPhone(phone)) == Digits(phone)
  {
    var d := Digits(phone);
    if phone == "" {
      assert Digits("N/A") == "";
    } else if |d| == 10 {
      DigitsOfLayout(d[..3], d[3..6], d[6..]);
      assert d[..3] + d[3..6] + d[6..] == d;
    }
  }

  /** Formatting an already formatted phone changes nothing. */
  lemma FormatPhoneIdempotent(phone: string)
    ensures FormatPhone(FormatPhone(phone)) == FormatPhone(phone)
  {
    FormatPhoneKeepsDigits(phone);
    if phone == "" {
      assert Digits("N/A") == "";
    }
  }

  /** A phone of exactly ten digits and nothing else is laid out as `(XXX) XXX-XXXX`. */
  lemma FormatPhoneOfTenDigits(d: string)
    requires |d| == 10 && forall i :: 0 <= i < |d| ==> IsDigit(d[i])
    ensures FormatPhone(d) == "(" + d[..3] + ") " + d[3..6] + "-" + d[6..]
  {
    DigitsOfDigits(d);
  }

  /** The ten-digit case on a concrete number. */
  lemma FormatPhoneTenDigitExample(p: string)
    requires p == "5551234567"
    ensures FormatPhone(p) == "(555) 123-4567"
  {
    FormatPhoneOfTenDigits(p);
    assert p[..3] == "555" && p[3..6] == "123" && p[6..] == "4567";
  }

  /** A seven-digit number is kept as written. */
  lemma FormatPhoneSevenDigitExample()
    ensures FormatPhone("555-0123") == "555-0123"
  {
    var p := "555-0123";
    assert p == "555" + "-" + "0123";
    FilterConcat("555", "-", IsDigit);
    FilterConcat("555-", "0123", IsDigit);
    DigitsOfDigits("555");
    DigitsOfDigits("0123");
    assert Digits("-") == "";
    assert |Digits(p)| == 7;
  }

  /** `getInitials`: the first letters of the first and last name, upper-cased. */
  function GetInitials(firstName: string, lastName: string): (r: string)
    ensures |r| == |FirstChar(firstName)| + |FirstChar(lastName)|
    ensures firstName != "" ==> r[0] == UpperChar(firstName[0])
    ensures lastName != "" ==> r[|r| - 1] == UpperChar(lastName[0])
    ensures forall i :: 0 <= i < |r| ==> !('a' <= r[i] <= 'z')
  {
    ToUpper(FirstChar(firstName) + FirstChar(lastName))
  }

  /** Only the first letter of each name matters. */
  lemma InitialsUseFirstLettersOnly(firstName: string, lastName: string)
    ensures GetInitials(firstName, lastName) ==
            GetInitials(firstName[..if firstName == "" then 0 else 1], lastName[..if lastName == "" then 0 else 1])
  {
  }
}
