/** The patient store of `DentalPatientManager`: the collection lifecycle
    (create, update, delete), the statistics, the sample data, and the
    manager object whose fields the handlers update. */
module Store {
  import opened Wrappers
  import opened Seqs
  import opened Text
  import opened Dates
  import opened Patients
  import opened Query

  // ---------------------------------------------------------------------
  // Ids
  // ---------------------------------------------------------------------

  predicate HasId(patients: seq<Patient>, id: Id) {
    exists i :: 0 <= i < |patients| && patients[i].id == id
  }

  /** No two records share an id. */
  ghost predicate UniqueIds(patients: seq<Patient>) {
    forall i, j :: 0 <= i < j < |patients| ==> patients[i].id != patients[j].id
  }

  /** Position `i` holds the first record with this id. */
  predicate FirstWithId(patients: seq<Patient>, id: Id, i: int) {
    0 <= i < |patients| && patients[i].id == id &&
    forall j :: 0 <= j < i ==> patients[j].id != id
  }

  /** `findIndex(p => p.id === id)`: the first position holding that id, or -1. */
  function FindIndex(patients: seq<Patient>, id: Id): (r: int)
    ensures r == -1 <==> !HasId(patients, id)
    ensures r != -1 ==> FirstWithId(patients, id, r)
  {
    if patients == [] then -1
    else if patients[0].id == id then 0
    else
      var k := FindIndex(patients[1..], id);
      assert forall j :: 1 <= j < |patients| ==> patients[j] == patients[1..][j - 1];
      if k == -1 then -1 else k + 1
  }

  // ---------------------------------------------------------------------
  // Lifecycle
  // ---------------------------------------------------------------------

  /** Appending a record with a fresh id keeps the ids unique. */
  lemma AppendFreshKeepsIdsUnique(patients: seq<Patient>, p: Patient)
    requires UniqueIds(patients) && !HasId(patients, p.id)
    ensures UniqueIds(patients + [p])
  {
    var r := patients + [p];
    forall i, j | 0 <= i < j < |r|
      ensures r[i].id != r[j].id
    {
      if j == |patients| {
        assert r[i] == patients[i];
      }
    }
  }

  /** A new record, as the add branch of `handleFormSubmit` appends it. */
  lemma CreatedRecord(form: PatientForm, now: int, id: Id)
    ensures var p := WithId(FromForm(form, now), id);
      p.id == id && p.status == Active && p.createdAt == now &&
      p.lastVisit.None? && p.nextAppointment.None? &&
      p.dateOfBirth == form.dateOfBirth &&
      p.firstName == Trim(form.firstName) && p.lastName == Trim(form.lastName) &&
      p.phone == Trim(form.phone) && p.email == Trim(form.email) &&
      p.address == Trim(form.address) && p.medicalHistory == Trim(form.medicalHistory) &&
      p.insuranceProvider == Trim(form.insuranceProvider) &&
      p.insuranceNumber == Trim(form.insuranceNumber) &&
      IsTrimmed(p.firstName) && IsTrimmed(p.lastName) && IsTrimmed(p.phone) &&
      IsTrimmed(p.email) && IsTrimmed(p.address) && IsTrimmed(p.medicalHistory) &&
      IsTrimmed(p.insuranceProvider) && IsTrimmed(p.insuranceNumber)
  {
    var d := FromForm(form, now);
    assert TextFieldsTrimmed(d);
  }

  /** The edit branch of `handleFormSubmit`: the first record with `id` gets
      the submitted data merged over it; nothing happens when no record has it. */
  function UpdatePatient(patients: seq<Patient>, id: Id, d: PatientData): (r: seq<Patient>)
    ensures |r| == |patients|
    ensures forall j :: 0 <= j < |patients| ==> r[j].id == patients[j].id
    ensures !HasId(patients, id) ==> r == patients
    ensures forall i :: FirstWithId(patients, id, i) ==> r == patients[i := WithId(d, id)]
  {
    var index := FindIndex(patients, id);
    if index == -1 then patients
    else
      MergeIsWithOldId(patients[index], d);
      patients[index := Merge(patients[index], d)]
  }

  /** An update leaves every id where it was, so unique ids stay unique. */
  lemma UpdateKeepsIdsUnique(patients: seq<Patient>, id: Id, d: PatientData)
    requires UniqueIds(patients)
    ensures UniqueIds(UpdatePatient(patients, id, d))
  {
  }

  /** Submitting the form for an existing record resets its status to
      `'active'`, replaces `createdAt`, clears the visit and the appointment
      and keeps the id and the position; every other record is unchanged. */
  lemma UpdateOverwritesRecord(patients: seq<Patient>, id: Id, form: PatientForm, now: int, i: int)
    requires FirstWithId(patients, id, i)
    ensures var r := UpdatePatient(patients, id, FromForm(form, now));
      r[i].id == patients[i].id &&
      r[i].status == Active && r[i].createdAt == now &&
      r[i].lastVisit.None? && r[i].nextAppointment.None? &&
      r[i].dateOfBirth == form.dateOfBirth &&
      r[i].firstName == Trim(form.firstName) && r[i].lastName == Trim(form.lastName) &&
      r[i].phone == Trim(form.phone) && r[i].email == Trim(form.email) &&
      r[i].address == Trim(form.address) && r[i].medicalHistory == Trim(form.medicalHistory) &&
      r[i].insuranceProvider == Trim(form.insuranceProvider) &&
      r[i].insuranceNumber == Trim(form.insuranceNumber) &&
      (forall j :: 0 <= j < |patients| && j != i ==> r[j] == patients[j])
  {
    var r := UpdatePatient(patients, id, FromForm(form, now));
    assert r == patients[i := WithId(FromForm(form, now), id)];
  }

  /** `deletePatient`: every record with that id is removed. */
  function RemoveById(patients: seq<Patient>, id: Id): seq<Patient> {
    Filter(patients, (p: Patient) => p.id != id)
  }

  /** Deletion keeps the other records in their order, each occurrence of
      a record with another id, and no record with the deleted id. */
  lemma RemoveByIdSpec(patients: seq<Patient>, id: Id)
    ensures var r := RemoveById(patients, id);
      IsSubsequence(r, patients) && !HasId(r, id) &&
      forall x :: multiset(r)[x] == if x.id == id then 0 else multiset(patients)[x]
  {
    var f := (p: Patient) => p.id != id;
    FilterIsSubsequence(patients, f);
    FilterMultiset(patients, f);
  }

  /** Deleting an id no record has changes nothing, so deleting twice is deleting once. */
  lemma RemoveAbsentIsNoop(patients: seq<Patient>, id: Id)
    requires !HasId(patients, id)
    ensures RemoveById(patients, id) == patients
  {
    FilterAllKept(patients, (p: Patient) => p.id != id);
  }

  lemma RemoveIsIdempotent(patients: seq<Patient>, id: Id)
    ensures RemoveById(RemoveById(patients, id), id) == RemoveById(patients, id)
  {
    RemoveByIdSpec(patients, id);
    RemoveAbsentIsNoop(RemoveById(patients, id), id);
  }

  /** Filtering never creates a duplicate id. */
  lemma {:induction false} FilterKeepsIdsUnique(patients: seq<Patient>, f: Patient -> bool)
    requires UniqueIds(patients)
    ensures UniqueIds(Filter(patients, f))
  {
    if patients != [] {
      var rest := patients[1..];
      assert UniqueIds(rest) by {
        forall i, j | 0 <= i < j < |rest|
          ensures rest[i].id != rest[j].id
        {
          assert rest[i] == patients[i + 1] && rest[j] == patients[j + 1];
        }
      }
      FilterKeepsIdsUnique(rest, f);
      var tail := Filter(rest, f);
      if f(patients[0]) {
        forall j | 0 <= j < |tail|
          ensures tail[j].id != patients[0].id
        {
          FilterMembership(rest, f, tail[j]);
          var m :| 0 <= m < |rest| && rest[m] == tail[j];
          assert patients[m + 1] == tail[j];
        }
        var r := [patients[0]] + tail;
        forall i, j | 0 <= i < j < |r|
          ensures r[i].id != r[j].id
        {
          assert r[j] == tail[j - 1];
          if i > 0 {
            assert r[i] == tail[i - 1];
          }
        }
      }
    }
  }

  lemma RemoveKeepsIdsUnique(patients: seq<Patient>, id: Id)
    requires UniqueIds(patients)
    ensures UniqueIds(RemoveById(patients, id))
  {
    FilterKeepsIdsUnique(patients, (p: Patient) => p.id != id);
  }

  // ---------------------------------------------------------------------
  // Statistics
  // ---------------------------------------------------------------------

  /** The figures `updateStats` shows (and the active count it computes). */
  datatype Stats = Stats(
    totalPatients: nat,
    activePatients: nat,
    todayAppointments: nat,
    pendingAppointments: nat,
    monthlyRevenue: int)

  /** Average revenue per patient in the simulated monthly figure. */
  const RevenuePerPatient: int := 150

  predicate IsActive(p: Patient) {
    p.status == Active
  }

  predicate DueToday(p: Patient, today: Date) {
    p.nextAppointment == Some(today)
  }

  predicate DueLater(p: Patient, today: Date) {
    p.nextAppointment.Some? && Before(today, p.nextAppointment.value)
  }

  /** `updateStats` over the full collection on day `today`. */
  function UpdateStats(patients: seq<Patient>, today: Date): (s: Stats)
    ensures s.totalPatients == |patients|
    ensures s.activePatients <= s.totalPatients
    ensures s.todayAppointments + s.pendingAppointments <= s.totalPatients
    ensures s.monthlyRevenue == RevenuePerPatient * s.totalPatients
  {
    var dueToday := (p: Patient) => DueToday(p, today);
    var dueLater := (p: Patient) => DueLater(p, today);
    FilterDisjointCount(patients, dueToday, dueLater);
    var total := |patients|;
    Stats(total, |Filter(patients, IsActive)|, |Filter(patients, dueToday)|,
          |Filter(patients, dueLater)|, total * RevenuePerPatient)
  }

  function Indicator(b: bool): nat {
    if b then 1 else 0
  }

  /** Adding a record adds one patient, 150 of revenue, and one to each count it falls in. */
  lemma StatsAfterAppend(patients: seq<Patient>, p: Patient, today: Date)
    ensures var before := UpdateStats(patients, today);
      var after := UpdateStats(patients + [p], today);
      after.totalPatients == before.totalPatients + 1 &&
      after.monthlyRevenue == before.monthlyRevenue + RevenuePerPatient &&
      after.activePatients == before.activePatients + Indicator(IsActive(p)) &&
      after.todayAppointments == before.todayAppointments + Indicator(DueToday(p, today)) &&
      after.pendingAppointments == before.pendingAppointments + Indicator(DueLater(p, today))
  {
    FilterConcat(patients, [p], IsActive);
    FilterConcat(patients, [p], (q: Patient) => DueToday(q, today));
    FilterConcat(patients, [p], (q: Patient) => DueLater(q, today));
  }

  // ---------------------------------------------------------------------
  // Sample data
  // ---------------------------------------------------------------------

  /** The three records `loadSampleData` installs; the ids come from `generateId`. */
  function SamplePatients(id1: Id, id2: Id, id3: Id): (r: seq<Patient>)
    ensures |r| == 3
    ensures r[0].id == id1 && r[1].id == id2 && r[2].id == id3
    ensures forall i :: 0 <= i < |r| ==> r[i].status == Active && r[i].lastVisit.Some?
  {
    [ Patient(id1, "John", "Smith", Some(Date(1985, 3, 15)), "555-0123",
              "john.smith@email.com", "123 Main St, Anytown, CA 90210",
              "No known allergies. Regular dental checkups.",
              "Blue Cross Blue Shield", "BCBS123456789", Active,
              1705314600000, Some(Date(2024, 2, 15)), Some(Date(2024, 5, 15))),
      Patient(id2, "Sarah", "Johnson", Some(Date(1992, 7, 22)), "555-0456",
              "sarah.j@email.com", "456 Oak Ave, Somewhere, CA 90211",
              "Sensitive to cold temperatures. Prefers warm water for cleaning.",
              "Aetna", "AET789012345", Active,
              1705760100000, Some(Date(2024, 3, 1)), Some(Date(2024, 6, 1))),
      Patient(id3, "Michael", "Davis", Some(Date(1978, 11, 8)), "555-0789",
              "michael.davis@email.com", "789 Pine Rd, Elsewhere, CA 90212",
              "History of gum disease. Requires regular deep cleaning.",
              "Cigna", "CIG456789012", Active,
              1706780700000, Some(Date(2024, 3, 20)), Some(Date(2024, 4, 20))) ]
  }

  /** Distinct generated ids give a sample collection with unique ids. */
  lemma SampleIdsUnique(id1: Id, id2: Id, id3: Id)
    requires id1 != id2 && id1 != id3 && id2 != id3
    ensures UniqueIds(SamplePatients(id1, id2, id3))
  {
  }

  // ---------------------------------------------------------------------
  // The manager object
  // ---------------------------------------------------------------------

  /** `DentalPatientManager`: the full collection, the displayed view, the
      record being edited, and the `'dentalPatients'` entry of local storage
      as the last save left it. */
  class PatientManager {
    var patients: seq<Patient>
    var filteredPatients: seq<Patient>
    var currentPatientId: Option<Id>
    var storage: Option<seq<Patient>>

    /** The form is in edit mode: `currentPatientId` is truthy. */
    predicate Editing()
      reads this
    {
      currentPatientId.Some? && currentPatientId.value != ""
    }

    /** Loads the stored collection (none when nothing was saved) and seeds
        the sample records when it is empty. */
    constructor (stored: Option<seq<Patient>>, id1: Id, id2: Id, id3: Id)
      requires id1 != id2 && id1 != id3 && id2 != id3
      ensures currentPatientId == None
      ensures stored.Some? && stored.value != [] ==>
        patients == stored.value && filteredPatients == stored.value && storage == stored
      ensures !(stored.Some? && stored.value != []) ==>
        patients == SamplePatients(id1, id2, id3) && filteredPatients == patients &&
        storage == Some(patients)
    {
      var loaded := if stored.Some? then stored.value else [];
      patients := loaded;
      currentPatientId := None;
      filteredPatients := loaded;
      storage := stored;
      new;
      LoadSampleData(id1, id2, id3);
    }

    /** `saveToLocalStorage`. */
    method Save()
      modifies this`storage
      ensures storage == Some(patients)
    {
      storage := Some(patients);
    }

    /** The edit-mode part of `openModal`: a truthy id selects the record to edit. */
    method OpenModal(patientId: Option<Id>)
      modifies this`currentPatientId
      ensures currentPatientId == if patientId.Some? && patientId.value != "" then patientId else None
    {
      if patientId.Some? && patientId.value != "" {
        currentPatientId := patientId;
      } else {
        currentPatientId := None;
      }
    }

    /** The state part of `closeModal`. */
    method CloseModal()
      modifies this`currentPatientId
      ensures currentPatientId == None
    {
      currentPatientId := None;
    }

    /** `handleFormSubmit`: updates the record being edited, or appends a new
        record with the fresh id `freshId`; then saves and leaves edit mode.
        The view is not recomputed. */
    method HandleFormSubmit(form: PatientForm, now: int, freshId: Id)
      requires !Editing() ==> !HasId(patients, freshId)
      modifies this
      ensures old(Editing()) ==>
        patients == UpdatePatient(old(patients), old(currentPatientId).value, FromForm(form, now))
      ensures !old(Editing()) ==> patients == old(patients) + [WithId(FromForm(form, now), freshId)]
      ensures UniqueIds(old(patients)) ==> UniqueIds(patients)
      ensures filteredPatients == old(filteredPatients)
      ensures currentPatientId == None
      ensures storage == Some(patients)
    {
      Submit(FromForm(form, now), freshId);
    }

    /** `handleFormSubmit` once the form has been read into `patientData`. */
    method Submit(patientData: PatientData, freshId: Id)
      requires !Editing() ==> !HasId(patients, freshId)
      modifies this
      ensures old(Editing()) ==>
        patients == UpdatePatient(old(patients), old(currentPatientId).value, patientData)
      ensures !old(Editing()) ==> patients == old(patients) + [WithId(patientData, freshId)]
      ensures UniqueIds(old(patients)) ==> UniqueIds(patients)
      ensures filteredPatients == old(filteredPatients)
      ensures currentPatientId == None
      ensures storage == Some(patients)
    {
      if Editing() {
        var index := FindIndex(patients, currentPatientId.value);
        if index != -1 {
          patients := patients[index := Merge(patients[index], patientData)];
        }
        if UniqueIds(old(patients)) {
          UpdateKeepsIdsUnique(old(patients), currentPatientId.value, patientData);
        }
      } else {
        var p := WithId(patientData, freshId);
        if UniqueIds(old(patients)) {
          AppendFreshKeepsIdsUnique(patients, p);
        }
        patients := patients + [p];
      }
      Save();
      CloseModal();
    }

    /** `deletePatient`, after the user has confirmed. The view is not recomputed. */
    method DeletePatient(patientId: Id)
      modifies this
      ensures patients == RemoveById(old(patients), patientId)
      ensures UniqueIds(old(patients)) ==> UniqueIds(patients)
      ensures filteredPatients == old(filteredPatients)
      ensures currentPatientId == old(currentPatientId)
      ensures storage == Some(patients)
    {
      if UniqueIds(patients) {
        RemoveKeepsIdsUnique(patients, patientId);
      }
      patients := RemoveById(patients, patientId);
      Save();
    }

    /** `handleSearch`: the view becomes the records matching the query. */
    method HandleSearch(query: string)
      modifies this`filteredPatients
      ensures filteredPatients == SearchView(patients, query)
    {
      var searchTerm := SearchTerm(query);
      if searchTerm == "" {
        filteredPatients := patients;
      } else {
        filteredPatients := Filter(patients, p => MatchesQuery(p, searchTerm));
      }
    }

    /** `handleFilter`: the view becomes the records matching the search box and the status filter. */
    method HandleFilter(statusFilter: string, searchInput: string)
      modifies this`filteredPatients
      ensures filteredPatients == FilterView(patients, statusFilter, searchInput)
    {
      var searchQuery := SearchTerm(searchInput);
      filteredPatients := Filter(patients, p => MatchesSearch(p, searchQuery) && MatchesStatus(p, statusFilter));
    }

    /** `handleSort`: the view is reordered by the stable sort for `sortBy`. */
    method HandleSort(sortBy: string)
      modifies this`filteredPatients
      ensures filteredPatients == StableSort(sortBy, old(filteredPatients))
      ensures multiset(filteredPatients) == multiset(old(filteredPatients))
      ensures Sorted(sortBy, filteredPatients)
    {
      SortIsSorted(sortBy, filteredPatients);
      filteredPatients := StableSort(sortBy, filteredPatients);
    }

    /** `loadSampleData`: an empty collection gets the three sample records,
        which become the view and are saved; otherwise nothing changes. */
    method LoadSampleData(id1: Id, id2: Id, id3: Id)
      requires id1 != id2 && id1 != id3 && id2 != id3
      modifies this
      ensures old(patients) == [] ==>
        patients == SamplePatients(id1, id2, id3) && filteredPatients == patients &&
        storage == Some(patients) && UniqueIds(patients)
      ensures old(patients) != [] ==>
        patients == old(patients) && filteredPatients == old(filteredPatients) && storage == old(storage)
      ensures currentPatientId == old(currentPatientId)
    {
      if |patients| == 0 {
        SampleIdsUnique(id1, id2, id3);
        patients := SamplePatients(id1, id2, id3);
        filteredPatients := patients;
        Save();
      }
    }
  }

  lemma SampleJohnMatches(p: Patient, term: string)
    requires p.firstName == "John" && term == "john"
    ensures MatchesQuery(p, term)
  {
    assert ToLower(p.firstName) == "john";
    assert OccursAt("john", term, 0);
    IncludesAt("john", term, 0);
  }

  lemma SampleJohnsonMatches(p: Patient, term: string)
    requires p.lastName == "Johnson" && term == "john"
    ensures MatchesQuery(p, term)
  {
    assert ToLower(p.lastName) == "johnson";
    assert OccursAt("johnson", term, 0);
    IncludesAt("johnson", term, 0);
  }

  lemma SampleDavisDoesNotMatch(p: Patient, term: string)
    requires p.firstName == "Michael" && p.lastName == "Davis" && p.phone == "555-0789"
    requires p.email == "michael.davis@email.com" && term == "john"
    ensures !MatchesQuery(p, term)
  {
    ToLowerAvoidsLetter(p.firstName, 'j', 'J');
    ToLowerAvoidsLetter(p.lastName, 'j', 'J');
    ToLowerAvoidsLetter(p.email, 'j', 'J');
    NotIncludedWithoutFirstChar(ToLower(p.firstName), term);
    NotIncludedWithoutFirstChar(ToLower(p.lastName), term);
    NotIncludedWithoutFirstChar(p.phone, term);
    NotIncludedWithoutFirstChar(ToLower(p.email), term);
  }

  /** The records a search for "john" keeps, in order. */
  lemma SearchJohnOverThree(s: seq<Patient>, query: string)
    requires query == "john" && |s| == 3
    requires MatchesQuery(s[0], query) && MatchesQuery(s[1], query) && !MatchesQuery(s[2], query)
    ensures SearchView(s, query) == [s[0], s[1]]
  {
    TrimToLowerOfPlain(query);
    var f := (p: Patient) => MatchesQuery(p, query);
    assert s == [s[0]] + [s[1]] + [s[2]];
    FilterConcat([s[0]] + [s[1]], [s[2]], f);
    FilterConcat([s[0]], [s[1]], f);
  }

  /** Searching the sample records for "john" finds John Smith and Sarah Johnson. */
  lemma SearchJohnFindsTwoSamples(id1: Id, id2: Id, id3: Id)
    ensures var s := SamplePatients(id1, id2, id3);
      SearchView(s, "john") == [s[0], s[1]]
  {
    var query := "john";
    var s := SamplePatients(id1, id2, id3);
    SampleJohnMatches(s[0], query);
    SampleJohnsonMatches(s[1], query);
    SampleDavisDoesNotMatch(s[2], query);
    SearchJohnOverThree(s, query);
  }

  /** A client of the manager: on a fresh store the sample records are shown;
      a record added through the form is stored and saved but does not
      appear in the view until the next search or filter. */
  method StaleViewAfterCreate(form: PatientForm, now: int, id1: Id, id2: Id, id3: Id, freshId: Id)
    requires id1 != id2 && id1 != id3 && id2 != id3
    requires freshId != id1 && freshId != id2 && freshId != id3
  {
    var m := new PatientManager(None, id1, id2, id3);
    var sample := m.patients;
    assert |sample| == 3 && m.filteredPatients == sample;
    assert !HasId(sample, freshId) by {
      forall i | 0 <= i < |sample| ensures sample[i].id != freshId {
        assert i == 0 || i == 1 || i == 2;
      }
    }
    m.HandleFormSubmit(form, now, freshId);
    assert m.patients == sample + [WithId(FromForm(form, now), freshId)];
    assert m.filteredPatients == sample && !(m.patients[3] in m.filteredPatients);
    var blank := "";
    assert SearchTerm(blank) == "";
    m.HandleSearch(blank);
    assert m.filteredPatients == m.patients;
  }
}
