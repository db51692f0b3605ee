# Dental patient manager — a Dafny model

This project models the data core of `DentalPatientManager`, a browser
application that keeps a dental practice's patient records. The records live
in `localStorage`, and a table shows a searchable, filterable and sortable view
of them.

The model has two forms. The object whose fields the application mutates
becomes the class `Store.PatientManager`. The list of records (`patients`),
the view the table shows (`filteredPatients`), the record being edited
(`currentPatientId`) and the last snapshot written to `localStorage`
(`storage`) are all fields of that class, and its methods change them:
- `HandleFormSubmit` (the add and edit branches, through `Submit`);
- `DeletePatient`, `HandleSearch`, `HandleFilter`, `HandleSort`;
- `LoadSampleData`, the constructor, and the edit-mode parts of
  `OpenModal`/`CloseModal`.

The pure helpers are functions with lemmas: `formatPhone`, `calculateAge`,
`getInitials`, the search predicates, the sort comparator and the
`updateStats` counts.

The modules follow the program's layers:
- `Seqs`: `Array.prototype.filter` and subsequences.
- `Text`: `trim`, ASCII case mapping, `includes`, digit stripping, `charAt(0)`.
- `Dates`: calendar days, date order and `calculateAge`.
- `Patients`: the record, the form data, `formatPhone`, `getInitials`.
- `Query`: the search and status views, the comparator and the stable sort.
- `Store`: id lookup, update, delete, statistics, sample data and the manager class.
- `Wrappers`: `Option`.

The clock, the id generator and the DOM inputs are parameters:
- `now` is the creation timestamp in milliseconds.
- `today` is the calendar day.
- `freshId`, `id1`..`id3` are the ids `generateId` would return.
- `query`, `statusFilter`, `searchInput` and `sortBy` are the control values.

## Behaviour of the code worth knowing

- **Editing a record** overwrites `createdAt`, resets `status` to `'active'`
  and clears `lastVisit` and `nextAppointment`. The form data carries those
  fields, and the spread in script.js line 156 lets them win.
  `Store.UpdateOverwritesRecord` states this.
- **Updating an id no record has, or deleting an absent id,** changes nothing
  and raises nothing (script.js lines 155 and 174).
  `Store.UpdatePatient` and `Store.RemoveAbsentIsNoop` state this.
- **The view is not recomputed** after a create, update or delete
  (script.js lines 166-169 and 174-177). `filteredPatients` keeps its old value,
  and `renderPatients` draws it until the next search or filter.
  `Store.StaleViewAfterCreate` shows a record that was just added missing
  from the view.
- **The form's values are only trimmed** before they are stored (script.js
  lines 136-150). Every other field is stored as typed.

## Model

| member | source | states |
|---|---|---|
| Seqs.Filter | script.js:174 | the kept elements all satisfy the predicate and are no more than the input; FilterIsSubsequence and FilterMultiset pin them as every satisfying element, in order |
| Text.Trim | script.js:137-145 | the result has no ECMAScript whitespace or line terminator at either end and is no longer than the input |
| Text.TrimIsInnerSlice | script.js:137-145 | the trimmed text is a contiguous slice of the input, with only whitespace before and after it |
| Text.TrimIdempotent | script.js:137-145 | trimming a trimmed value changes nothing |
| Text.TrimEmptyIff | script.js:137-145 | a field trims to empty exactly when it is all whitespace |
| Text.TrimToLowerCommute | script.js:284 | lower-casing then trimming equals trimming then lower-casing |
| Text.Includes | script.js:290-293 | `s.includes(t)`: the term occurs as a contiguous block of the text, as `IncludesIff` states in both directions |
| Text.IncludesIff | script.js:290-293 | `includes` holds exactly when the term occurs at some position of the text |
| Text.Digits | script.js:65 | stripping non-digits leaves only decimal digits |
| Text.DigitsKeepsDigits | script.js:65 | every digit of the phone survives, in its original order and with its multiplicity, and nothing else does |
| Text.ToLower | script.js:284 | lower-casing keeps the length and maps each character to its lower-case form (ASCII letters only) |
| Text.ToUpper | script.js:51 | upper-casing keeps the length and maps each character to its upper-case form (ASCII letters only) |
| Text.FirstChar | script.js:51 | `charAt(0)` is the empty string for an empty name and otherwise the one-character string of the name's first code point |
| Patients.FromForm | script.js:136-150 | the submitted data has every text field equal to the trim of the typed value, the date of birth as entered, status `'active'`, creation time `now`, no last visit and no next appointment |
| Patients.WithId | script.js:161 | the new record carries the generated id and exactly the submitted data |
| Patients.Merge | script.js:156 | the merged record keeps the stored id, and every other field is the submitted one |
| Patients.MergeIsWithOldId | script.js:156 | merging over a stored record equals giving the new data the stored id: nothing else of the old record survives |
| Patients.FormatPhone | script.js:63-71 | an empty phone gives `N/A`; a phone with exactly ten digits gives `(XXX) XXX-XXXX` built from those digits in order; anything else is returned unchanged |
| Patients.FormatPhoneKeepsDigits | script.js:63-71 | the formatted phone holds the same digits, in the same order, as the input |
| Patients.FormatPhoneIdempotent | script.js:63-71 | formatting a formatted phone changes nothing |
| Patients.FormatPhoneTenDigitExample | script.js:66-68 | `5551234567` is shown as `(555) 123-4567` |
| Patients.FormatPhoneSevenDigitExample | script.js:70 | the sample phone `555-0123` is shown as stored |
| Patients.GetInitials | script.js:50-52 | the initials are the upper-cased first letters of the first and last name, one per non-empty name, with no lower-case letter |
| Patients.InitialsUseFirstLettersOnly | script.js:51 | only the first letter of each name affects the initials |
| Dates.DateCompare | script.js:332 | the comparison of two days is zero exactly for equal days and negative exactly when the first is earlier |
| Dates.CalculateAge | script.js:73-84 | no date of birth gives `N/A`; otherwise the age is the number of the last birthday not after today: today is on or after that anniversary and before the next |
| Dates.AgeIsUnique | script.js:77-83 | any number of years meeting the full-years characterisation is the computed age |
| Dates.AgeOnBirthday | script.js:77-83 | on the n-th birthday the age is n |
| Dates.AgeIsMonotonic | script.js:77-83 | the age never decreases as the current day moves forward |
| Store.FindIndex | script.js:154 | `-1` exactly when no record has the id; otherwise the position of the first record with it |
| Store.CreatedRecord | script.js:136-162 | a record added through the form has the fresh id, status `'active'`, creation time `now`, no visit, no appointment, the date of birth as entered, and each text field the trim of the typed value |
| Store.AppendFreshKeepsIdsUnique | script.js:161-162 | appending a record under an id not yet used keeps the ids unique |
| Store.UpdatePatient | script.js:152-158 | the update keeps the length and every id in place; the first record with the id becomes the submitted data under that id; when no record has the id the collection is unchanged |
| Store.UpdateKeepsIdsUnique | script.js:152-158 | an update never introduces a duplicate id |
| Store.UpdateOverwritesRecord | script.js:146-156 | editing resets status, creation time, last visit and next appointment, sets the date of birth and all eight text fields to the trimmed form values, keeps the id, and leaves every other record unchanged |
| Store.RemoveById | script.js:174 | deletion is the filter that keeps the records whose id differs from the deleted one; its meaning is stated by the lemmas below |
| Store.RemoveByIdSpec | script.js:174 | after deletion no record has the id; the rest keep their order and every occurrence of a record with another id |
| Store.RemoveAbsentIsNoop | script.js:174 | deleting an unknown id changes nothing |
| Store.RemoveIsIdempotent | script.js:174 | deleting the same id twice is deleting it once |
| Store.RemoveKeepsIdsUnique | script.js:174 | deletion never introduces a duplicate id |
| Store.IsActive | script.js:410 | the active count tests the status against `'active'` |
| Store.DueToday | script.js:412 | due today means the next appointment is exactly today |
| Store.DueLater | script.js:413 | pending means there is a next appointment and it falls after today |
| Store.UpdateStats | script.js:408-416 | total is the number of records, the active count is at most the total, appointments today and later are disjoint and together at most the total, and revenue is 150 per patient |
| Store.StatsAfterAppend | script.js:408-416 | adding a record adds one patient and 150 of revenue, and adds one to the active, today and pending counts exactly when it falls in each |
| Store.SamplePatients | script.js:450-501 | the three sample records carry the generated ids in order; all are active and have a last visit |
| Store.SampleIdsUnique | script.js:452-501 | distinct generated ids give a sample collection with unique ids |
| Store.SearchJohnFindsTwoSamples | script.js:283-295 | searching the sample records for `john` shows John Smith and Sarah Johnson, in that order, and not Michael Davis |
| Query.SearchTerm | script.js:284 | the term is the lower-cased query with only surrounding whitespace removed: trimmed, free of capitals, a contiguous slice of the lower-cased query, and no longer than the query |
| Query.MatchesQuery | script.js:289-293 | a record matches a term when the term is included in its lower-cased first name, last name or non-empty email, or in its phone as stored |
| Query.MatchesQueryIff | script.js:289-293 | a record matches exactly when the term occurs at some position of one of those four fields |
| Query.MatchesSearch | script.js:305-309 | an empty term matches every record; otherwise matching is the search match |
| Query.MatchesStatus | script.js:311 | the status filter `'all'` matches every record; otherwise the status must equal the filter |
| Query.SearchView | script.js:283-295 | the search view has no more records than the collection, is the whole collection for a blank term, and holds only matching records |
| Query.FilterView | script.js:300-314 | the filter view has no more records than the collection and holds only records matching both the term and the status filter |
| Query.ViewsAreSubsequences | script.js:283-317 | both the search view and the filter view keep records of the collection in their original order |
| Query.SearchViewSelects | script.js:283-295 | a record is in the search view exactly when it is in the collection and matches the term, and every occurrence of a match is kept |
| Query.FilterViewSelects | script.js:300-314 | a record is in the filter view exactly when it is in the collection and matches both the term and the status filter, and every occurrence of such a match is kept |
| Query.SearchIgnoresStatus | script.js:283-295 | the search box alone gives the same view as the filter with the status set to `'all'` |
| Query.BlankSearchShowsAll | script.js:286-287 | a blank search shows the whole collection |
| Query.SearchIsCaseInsensitive | script.js:284 | typing the query in capitals gives the same search and filter views |
| Query.FullName | script.js:325 | the name sorted on is the first name, a space, and the last name |
| Query.LexCompare | script.js:325 | the name comparison returns -1, 0 or 1, and 0 exactly for equal names |
| Query.LexCompareAntisymmetric | script.js:325 | swapping the names flips the sign of the name comparison |
| Query.LexCompareTransitive | script.js:325 | the name order is transitive |
| Query.Compare | script.js:322-336 | the comparator: by name the full-name order; by date newest creation first; by last visit the latest visit first with never-visited records last; any other key ties everything |
| Query.CompareAntisymmetric | script.js:322-336 | for every sort key, swapping the records flips the comparator's sign |
| Query.CompareTransitive | script.js:322-336 | for every sort key, "comes no later than" is transitive, so the comparator is consistent |
| Query.StableSort | script.js:322-336 | sorting is a permutation of the view |
| Query.SortIsSorted | script.js:322-336 | after sorting, no record comes after one the comparator puts after it |
| Query.SortIsStable | script.js:322-336 | the records the comparator ties together keep their relative order |
| Query.SortedStableUnique | script.js:322-336 | two sorted arrangements of the same records that order every tie class alike are identical |
| Query.SortIsTheStableSort | script.js:322-336 | any sort that returns a sorted, stable permutation of the view returns exactly the model's order, so the model fixes the order `Array.prototype.sort` must produce |
| Query.UnknownKeyKeepsOrder | script.js:333-334 | an unknown sort key leaves the view in its order |
| Query.SortByNameOrdersNames | script.js:324-325 | sorting by name orders the full names `first last` lexicographically |
| Query.SortByDateNewestFirst | script.js:326-327 | sorting by date puts the most recently created record first |
| Query.SortByLastVisitLatestFirst | script.js:328-332 | sorting by last visit puts visited records before never-visited ones, latest visit first |
| Store.PatientManager.Editing | script.js:152 | edit mode means `currentPatientId` is present and not the empty string, the truthiness test of the submit handler |
| Store.PatientManager.constructor | script.js:3-12 | the stored collection is loaded and shown; with nothing stored, or an empty list stored, the sample records are installed, shown and saved; nothing is being edited |
| Store.PatientManager.Save | script.js:446-448 | the storage snapshot becomes the current collection |
| Store.PatientManager.OpenModal | script.js:86-104 | a non-empty id selects the record to edit; no id, or an empty one, enters add mode |
| Store.PatientManager.CloseModal | script.js:110-114 | edit mode ends |
| Store.PatientManager.HandleFormSubmit | script.js:133-170 | in edit mode the collection receives the update; otherwise the new record with the fresh id is appended; ids stay unique, the view is untouched, edit mode ends and the collection is saved |
| Store.PatientManager.Submit | script.js:152-169 | with the form already read: in edit mode the collection receives the update, otherwise the record with the fresh id is appended; ids stay unique, the view is untouched, edit mode ends and the collection is saved |
| Store.PatientManager.DeletePatient | script.js:172-180 | the collection loses every record with the id; ids stay unique, the view and edit mode are untouched, and the collection is saved |
| Store.PatientManager.HandleSearch | script.js:283-298 | the view becomes the search view of the full collection for the query |
| Store.PatientManager.HandleFilter | script.js:300-317 | the view becomes the records matching both the search box and the status filter |
| Store.PatientManager.HandleSort | script.js:319-339 | the view is reordered: a sorted permutation of its old contents, the stable sort for the key |
| Store.PatientManager.LoadSampleData | script.js:450-509 | an empty collection gets the three sample records, with unique ids, shown and saved; a non-empty one is left alone |

## Left out

- Rendering is not modelled because it is all DOM work: `renderPatients`, `viewPatientDetails`, `populateForm`, `showToast`, the modal's title and focus, and the event wiring in `initializeEventListeners`. `updateStats` writing into the page is left out for the same reason.
- JSON serialisation is left out. `localStorage` is the `storage` snapshot field, and the constructor's parameter is what `JSON.parse` would return.
- The `confirm` dialog in `deletePatient` is not modelled: `DeletePatient` is the confirmed path. A cancel does nothing.
- `generateId` is not modelled, because it depends on the clock and randomness. The ids arrive as parameters, and `HandleFormSubmit` requires in add mode that the fresh id is not already in use.
- `formatDate` and `toLocaleString` are left out because they are locale-dependent display code.
- Date-string parsing and time zones are left out. `calculateAge` parses the date of birth as UTC midnight but reads it back in local time. West of UTC that moves the birthday one day earlier; the model uses the day as written. Days are (year, month, day) triples. `calculateAge` is taken on the local calendar day, and `updateStats` on the UTC day; both days are passed in. Timestamps are whole milliseconds.
- Text.ToLower, Text.ToUpper: only ASCII letters change case. Unicode case mapping is not modelled, so `'é'` stays as it is where `toUpperCase` gives `'É'`.
- Text.FirstChar: strings are sequences of Unicode code points, not UTF-16 code units. For a name that starts outside the Basic Multilingual Plane, `charAt(0)` returns the high half of a surrogate pair, but the model returns the whole character. `trim`, `includes` and the non-digit strip give the same results on well-formed strings either way.
- Patients.GetInitials: inherits the code-point reading of `Text.FirstChar`. For a name starting with a character outside the Basic Multilingual Plane, the source's initial is a lone high surrogate, and the model's is the whole character.
- Query.LexCompare: `localeCompare` is stood in for by lexicographic order on characters. Locale collation rules are not modelled.
- Query.StableSort: the sort is an insertion sort on a value, not an in-place array sort. `Array.prototype.sort` is stable, `CompareAntisymmetric` and `CompareTransitive` prove the comparator consistent, and `SortIsTheStableSort` shows that only one order is sorted and stable. Aliasing of the sorted array is not modelled.
- Dates.DateCompare: only the sign of the difference between two days is kept, not the number of milliseconds. The sort reads only the sign.
- Store.UpdateStats: only the counts are modelled; the formatting of the revenue figure is not.
- Query.MatchesQuery: a missing email is modelled as the empty string. The source's other fields are always strings.
