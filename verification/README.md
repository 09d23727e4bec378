# Patient admission, discharge and specialty roster

This project models the patient/visit lifecycle of a hospital ward web app
in Dafny. A patient is one row of the `patients` table, keyed by medical
record number (MRN). Each admission episode is one row of the `visits`
table, and that row stays open while its `discharge_date` is null. Three
components read and write these tables:

- **Admission form** (`admission.dfy`). It looks up the MRN that was typed
  in. On submit it reuses the patient it found, or else inserts the form as
  a new patient row. It then appends one open visit stamped `date + "T" + time`.
- **Discharge page** (`discharge.dfy`). It lists the open visits newest
  first, each with its patient. It loads the full visit history of the
  patient picked. It writes a discharge stamp `date + "T" + time + ":00"`
  and a note on the picked visit, and then drops every entry with that MRN
  from its list.
- **Specialty roster** (`roster.dfy`). It groups every visit under a fixed
  list of nine specialties. Within each group it splits the visits into
  active ones and discharged ones by the truthiness of `discharge_date`.

The hosted database is the `Store` module (`store.dfy`). It holds the two
tables as a map and a sequence, inside a `Db` class. Each query or write is
a function over the table values, and the `Db` methods apply those
functions.

- **Failures.** A failing call is a parameter, `outage`. It is `None` when
  the service answers and `Some(code)` when the call fails with that error
  code. A failing call changes nothing.
- **Schema constraints.** The store enforces the key and reference
  constraints of the schema, as `TablesValid` states:
  - The MRN is the primary key of `patients`; a duplicate is error `23505`.
  - `visit_id` is the primary key of `visits`; a duplicate is also `23505`.
  - Every visit's MRN must name a patient; otherwise the error is `23503`.
  - A single-row select that finds nothing returns `PGRST116`.
- **Sorting.** Ordering by `admission_date` descending compares the stored
  text character by character.
- **Visit ids.** The database generates each visit id. In the model the id
  is a parameter of the insert.

The code does not enforce several rules, so the model does not build them
in:

- one open visit per patient;
- a discharge that comes after the admission;
- a refusal to close a visit that is already closed;
- an admission that is all-or-nothing.

Lemmas state what the code does instead:
- `ReadmissionAddsOpenVisit`
- `DischargeIsUnguarded`
- `DischargeHidesOtherOpenVisits`
- the `Admit` case where the patient row is kept after the visit insert fails.

## Model

| member | source | states |
|---|---|---|
| Store.SortNewestFirst | src/components/PatientDischarge.tsx:49 | The result of ordering by descending admission date is in non-increasing text order and is a permutation of its input. |
| Store.InsertPatientRow | src/components/NewPatientAdmission.tsx:82-99 | A patient insert succeeds exactly when the service answers and the MRN is new. On success the table gains exactly the form's row and the row is returned. On failure the table is unchanged. |
| Store.InsertVisitRow | src/components/NewPatientAdmission.tsx:104-116 | A visit insert succeeds exactly when the service answers, the MRN has a patient row and the generated id is fresh. On success one row is appended, carrying the MRN, date and specialty and null discharge columns. On failure the table is unchanged. |
| Store.SetDischarge | src/components/PatientDischarge.tsx:98-104 | The update keeps the number of rows. It writes the discharge date and note on exactly the rows whose id matches and leaves every other row as it was. |
| Store.Db.InsertPatient | src/components/NewPatientAdmission.tsx:82-99 | The patients table becomes the insert's result. The visits table is unchanged, and the schema constraints are kept. |
| Store.Db.InsertVisit | src/components/NewPatientAdmission.tsx:104-116 | The visits table becomes the insert's result. The patients table is unchanged, and the schema constraints are kept. |
| Store.Db.UpdateDischarge | src/components/PatientDischarge.tsx:98-106 | The visits table becomes the update's result. The patients table is unchanged, and the schema constraints are kept. |
| Admission.WithField | src/components/NewPatientAdmission.tsx:64-67 | Only the named field takes the new value and the other seven keep theirs. A name that is not one of the eight fields leaves the record as it was. |
| Admission.WithFieldUnchanged | src/components/NewPatientAdmission.tsx:64-67 | Writing back the value a field already holds leaves the form unchanged. |
| Admission.LookupMirrorsTable | src/components/NewPatientAdmission.tsx:40-61 | A lookup that reaches the table sets the found patient to that MRN's row, or clears it when there is none. Any other error leaves the found patient as it was. |
| Admission.AdmissionStampSplits | src/components/NewPatientAdmission.tsx:109 | The visit's admission stamp splits at its first "T" back into the form's date and time. |
| Admission.Admit | src/components/NewPatientAdmission.tsx:74-116 | A found patient is reused without a patient write. Otherwise exactly the form is inserted, and if that fails no visit is written. Success appends exactly one open visit stamped from the form, for the reused or new MRN, which is the MRN returned. A patient row inserted before a failed visit insert stays. Success holds exactly under the stated conditions, and the schema constraints are preserved. |
| Admission.ReadmissionAddsOpenVisit | src/components/NewPatientAdmission.tsx:77-79 | Re-admitting a known patient adds one more open visit for that MRN, whether or not one is already open. |
| Admission.AdmissionForm.CheckExistingPatient | src/components/NewPatientAdmission.tsx:40-62 | `existingPatient` becomes the effect of the lookup's reply on its old value, which `LookupMirrorsTable` characterises. |
| Admission.AdmissionForm.HandleInputChange | src/components/NewPatientAdmission.tsx:64-67 | The form becomes the old form with the one field changed. |
| Admission.AdmissionForm.HandleSubmit | src/components/NewPatientAdmission.tsx:69-127 | The tables and the returned MRN are those `Admit` gives for the current form and found patient. Loading is off afterwards. The error message is empty on success and the admission-failed text on failure. |
| Discharge.CandidatesAreOpenVisits | src/components/PatientDischarge.tsx:40-59 | The fetched list has one entry per open visit and its ids are exactly the open visits' ids, each once. |
| Discharge.CandidatesCopyOpenVisits | src/components/PatientDischarge.tsx:53-59 | Each entry copies an open visit's id, date and specialty, together with its patient's MRN and name. |
| Discharge.CandidatesNewestFirst | src/components/PatientDischarge.tsx:49 | The fetched list is in non-increasing admission-date order. |
| Discharge.HistoryIsEveryVisitOf | src/components/PatientDischarge.tsx:73-81 | The history is a permutation of all visits of the MRN, open and closed. Every such visit appears and nothing else does. |
| Discharge.HistoryNewestFirst | src/components/PatientDischarge.tsx:77 | The history is in non-increasing admission-date order. |
| Discharge.DischargeStampSplits | src/components/PatientDischarge.tsx:95 | The discharge stamp ends in ":00". Before that, it splits at its first "T" back into the date and time entered. |
| Discharge.WithoutMrn | src/components/PatientDischarge.tsx:109 | No remaining entry has the MRN. Every entry with another MRN keeps its multiplicity. |
| Discharge.WithoutMrnKeepsOrder | src/components/PatientDischarge.tsx:109 | The entries that remain keep their relative order. |
| Discharge.DischargeIsUnguarded | src/components/PatientDischarge.tsx:90-106 | Any row's id can be discharged, whether the row is open or closed and whatever its dates. The write replaces its date and note and reports success. |
| Discharge.DischargeHidesOtherOpenVisits | src/components/PatientDischarge.tsx:104-109 | Another open visit of the same patient stays open in the table but disappears from the list. |
| Discharge.DischargeView.FetchPatients | src/components/PatientDischarge.tsx:37-68 | On success the list is the candidates built from the tables and the error is untouched. On failure the list is kept and the fetch-failed error is set. Loading is off afterwards. |
| Discharge.DischargeView.HandlePatientSelect | src/components/PatientDischarge.tsx:70-86 | The patient is selected. On success the history is that MRN's visits; on failure the history is kept. |
| Discharge.DischargeView.HandleDischarge | src/components/PatientDischarge.tsx:88-119 | A missing selection, date or time changes nothing. Otherwise the visits become the update's result for the selected id, stamp and note. A failure leaves the page state as it was. Success drops the MRN from the list and clears the selection, the three inputs and the history. |
| Roster.GroupFor | src/components/SpecialtiesManagement.tsx:59-77 | The group carries its name, and its two lists together are as long as that specialty's rows. Active entries have status active and no discharge date. Discharged entries have status discharged and a non-empty discharge date. |
| Roster.BuildRoster | src/components/SpecialtiesManagement.tsx:20-30 | There are nine groups, named in list order. A null reply gives nine empty groups. |
| Roster.ActiveDischargedPartition | src/components/SpecialtiesManagement.tsx:63-69 | The active and discharged filters partition a specialty's rows. Their multisets add up to the rows, their lengths add up, and no row is in both. |
| Roster.ActiveEntriesFromRows | src/components/SpecialtiesManagement.tsx:60-68 | Every active entry is made from a row of that specialty whose discharge date is falsy. |
| Roster.DischargedEntriesFromRows | src/components/SpecialtiesManagement.tsx:69-75 | Every discharged entry is made from a row of that specialty whose discharge date is truthy, and it copies that date. |
| Roster.GroupHasEveryRow | src/components/SpecialtiesManagement.tsx:60-75 | Every row of the specialty has its entry in the list its discharge date selects. |
| Roster.PlacedOnceIfListed | src/components/SpecialtiesManagement.tsx:59-60 | Over distinct names, a row is placed as often as it occurs when its specialty is one of the names, and otherwise never. |
| Roster.EachVisitPlacedOnce | src/components/SpecialtiesManagement.tsx:59-77 | Each visit of a listed specialty is placed in exactly one group and one of that group's two lists. A visit of any other specialty is placed nowhere. |
| Roster.RosterKeepsInputOrder | src/components/SpecialtiesManagement.tsx:60-75 | Each list keeps the order of the query's rows, because the roster of a concatenation is the concatenation of the rosters. |
| Roster.AfterFetch | src/components/SpecialtiesManagement.tsx:44-86 | On success the roster is rebuilt from the reply and the error is untouched. On failure the roster is kept and the fetch-failed error is set. Loading is off afterwards. |
| Roster.FetchShowsEveryVisit | src/components/SpecialtiesManagement.tsx:47-79 | After a successful fetch, every visit of a listed specialty appears, with its patient's name, in the active or discharged list of its group. |

## Left out

- The network client, the toasts, the console logging and `navigate` are left out. The MRN navigated to on success is the value `HandleSubmit` returns.
- The React effects that call the handlers are left out: the re-lookup when the MRN field changes and the fetch when a page is mounted. So are the interleavings of asynchronous calls, including the race between the lookup and a submit. Each handler is modelled as one step.
- The search and sort state declared by the discharge page and the roster is left out. The code that uses it is not part of this model.
- The generated `visit_id` is a parameter of the visit insert, because the database chooses it.
- Dates are text. Ordering compares the text character by character, which is chronological only for stamps of one format. For rows with equal dates, the database leaves the order unspecified, while the model's sort fixes one.
- A store failure other than the listed codes is an `outage` error code. What makes the service fail is not modelled.
- Admission.WithField: in the code, a name outside the eight fields adds a stray key to the form. The model has no such key and leaves the record unchanged.
- The roster and the discharge list test "open" differently. The discharge list asks for a null `discharge_date`. The roster treats null and the empty text alike as not discharged. So a visit whose `discharge_date` is the empty text is active on the roster but missing from the discharge list.
- Roster.ActiveEntriesFromRows, Roster.DischargedEntriesFromRows, Roster.EachVisitPlacedOnce: an entry does not identify its row, because rows with equal MRN, name and dates give equal entries. Exactly-once placement is therefore stated on the rows each group lists, not on the entries.
- Several rules that an admission/discharge design of this kind would have are not enforced by the code, so the model follows the code:
  - at most one open visit per patient;
  - a discharge no earlier than the admission;
  - rejecting the discharge of an already-closed visit;
  - an all-or-nothing admission.

  The lemmas named above state the resulting behaviour.
- The visit's specialty is free text, not restricted to the nine names. Visits of other specialties are dropped from the roster, as `EachVisitPlacedOnce` states.
