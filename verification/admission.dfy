/** The admission form: it looks up the MRN typed in, then on submit either
    reuses the patient found or inserts a new patient row, and in both cases
    appends one visit. */
module Admission {
  import opened Util
  import opened Store

  const EmptyForm := PatientData("", "", "", "", "", "", "", "")

  /** The message shown when the submission fails. */
  const AdmitFailed := "Failed to admit patient. Please try again."

  /** The `name` attributes of the form's inputs, which are the column names. */
  const FieldNames: set<string> := {
    "mrn", "patient_name", "age", "gender",
    "admission_date", "admission_time", "assigned_doctor", "specialty"
  }

  /** The form field an input `name` refers to. */
  function Field(d: PatientData, name: string): string
    requires name in FieldNames
  {
    if name == "mrn" then d.mrn
    else if name == "patient_name" then d.patientName
    else if name == "age" then d.age
    else if name == "gender" then d.gender
    else if name == "admission_date" then d.admissionDate
    else if name == "admission_time" then d.admissionTime
    else if name == "assigned_doctor" then d.assignedDoctor
    else d.specialty
  }

  /** The form with the field an input names set to the input's value; any other name is
      a key the record does not have, and the eight fields stay as they were. */
  function WithField(form: PatientData, name: string, value: string): (r: PatientData)
    ensures forall f :: f in FieldNames ==> Field(r, f) == if f == name then value else Field(form, f)
    ensures name !in FieldNames ==> r == form
  {
    if name == "mrn" then form.(mrn := value)
    else if name == "patient_name" then form.(patientName := value)
    else if name == "age" then form.(age := value)
    else if name == "gender" then form.(gender := value)
    else if name == "admission_date" then form.(admissionDate := value)
    else if name == "admission_time" then form.(admissionTime := value)
    else if name == "assigned_doctor" then form.(assignedDoctor := value)
    else if name == "specialty" then form.(specialty := value)
    else form
  }

  /** The eight fields are the whole record, so WithField's contract pins its result down. */
  lemma FieldsDetermineForm(a: PatientData, b: PatientData)
    requires forall f :: f in FieldNames ==> Field(a, f) == Field(b, f)
    ensures a == b
  {
    assert Field(a, "mrn") == Field(b, "mrn");
    assert Field(a, "patient_name") == Field(b, "patient_name");
    assert Field(a, "age") == Field(b, "age");
    assert Field(a, "gender") == Field(b, "gender");
    assert Field(a, "admission_date") == Field(b, "admission_date");
    assert Field(a, "admission_time") == Field(b, "admission_time");
    assert Field(a, "assigned_doctor") == Field(b, "assigned_doctor");
    assert Field(a, "specialty") == Field(b, "specialty");
  }

  /** Writing back the value a field already holds changes nothing. */
  lemma {:induction false} WithFieldUnchanged(form: PatientData, name: string)
    requires name in FieldNames
    ensures WithField(form, name, Field(form, name)) == form
  {
    FieldsDetermineForm(WithField(form, name, Field(form, name)), form);
  }

  /** The effect of the MRN lookup's reply on `existingPatient`: a row replaces it, the
      no-rows code clears it, and any other error leaves it as it was. */
  function AfterLookup(existing: Option<PatientData>, reply: Reply<PatientData>): Option<PatientData> {
    match reply
    case Data(row) => Some(row)
    case Error(code) => if code == NoRows then None else existing
  }

  /** A lookup that reaches the table mirrors it; one that fails otherwise changes nothing. */
  lemma LookupMirrorsTable(patients: map<string, PatientData>, mrn: string, existing: Option<PatientData>, outage: Option<string>)
    ensures outage.None? ==>
      AfterLookup(existing, SelectPatient(patients, mrn, outage))
        == if mrn in patients then Some(patients[mrn]) else None
    ensures outage.Some? && outage.value != NoRows ==>
      AfterLookup(existing, SelectPatient(patients, mrn, outage)) == existing
  {
  }

  /** The visit's `admission_date`: the form's date and time joined by "T". */
  function AdmissionStamp(date: string, time: string): string {
    date + "T" + time
  }

  /** A date without a "T" (as "YYYY-MM-DD" is) is recovered from the stamp, and so is the time. */
  lemma {:induction false} AdmissionStampSplits(date: string, time: string)
    requires 'T' !in date
    ensures SplitAtFirst(AdmissionStamp(date, time), 'T') == (date, time)
  {
    assert AdmissionStamp(date, time) == date + ['T'] + time;
    SplitJoined(date, 'T', time);
  }

  /** The tables after a submission, and the MRN the page navigates to when it succeeds. */
  datatype Outcome = Outcome(patients: map<string, PatientData>, visits: seq<VisitRow>, patientId: Option<string>)

  /** The submission as a function of the tables, the form state and the database's answers:
      `visitId` is the id the database generates, the outages are the two inserts' failures. */
  function Admit(
    patients: map<string, PatientData>, visits: seq<VisitRow>,
    form: PatientData, existing: Option<PatientData>,
    visitId: string, patientOutage: Option<string>, visitOutage: Option<string>): (o: Outcome)
    // A patient found by the lookup is reused: no patient row is written.
    ensures existing.Some? ==> o.patients == patients
    ensures existing.Some? && o.patientId.Some? ==> o.patientId.value == existing.value.mrn
    // Otherwise exactly the form is inserted, when the insert succeeds, and without it no visit.
    ensures existing.None? ==>
      var inserted := patientOutage.None? && form.mrn !in patients;
      && o.patients == (if inserted then patients[form.mrn := form] else patients)
      && (!inserted ==> o.patientId.None? && o.visits == visits)
      && (o.patientId.Some? ==> o.patientId.value == form.mrn)
    // When the visit insert fails the patient row written before it stays.
    ensures o.patientId.None? ==> o.visits == visits
    // Success appends exactly one open visit stamped from the form.
    ensures o.patientId.Some? ==>
      o.visits == visits + [VisitRow(visitId, o.patientId.value,
                                     AdmissionStamp(form.admissionDate, form.admissionTime),
                                     None, form.specialty, None)]
    ensures o.patientId.Some? <==>
      && (if existing.Some? then existing.value.mrn in patients
          else patientOutage.None? && form.mrn !in patients)
      && visitOutage.None? && !IdTaken(visits, visitId)
    ensures TablesValid(patients, visits) ==> TablesValid(o.patients, o.visits)
  {
    var (patients1, id) :=
      if existing.Some? then (patients, Some(existing.value.mrn))
      else
        var (p, reply) := InsertPatientRow(patients, form, patientOutage);
        (p, if reply.Data? then Some(reply.value.mrn) else None);
    if id.None? then Outcome(patients1, visits, None)
    else
      var stamp := AdmissionStamp(form.admissionDate, form.admissionTime);
      var (visits1, reply) := InsertVisitRow(patients1, visits, visitId, id.value, stamp, form.specialty, visitOutage);
      Outcome(patients1, visits1, if reply.Data? then id else None)
  }

  /** The visits of `mrn` that have no discharge date. */
  function OpenVisitsOf(visits: seq<VisitRow>, mrn: string): seq<VisitRow> {
    VisitsOf(OpenVisits(visits), mrn)
  }

  /** Re-admission does not look for an open visit: a patient who is already admitted
      gets one more open visit. */
  lemma {:induction false} ReadmissionAddsOpenVisit(
    patients: map<string, PatientData>, visits: seq<VisitRow>, form: PatientData,
    p: PatientData, visitId: string, patientOutage: Option<string>)
    requires p.mrn in patients && !IdTaken(visits, visitId)
    ensures var o := Admit(patients, visits, form, Some(p), visitId, patientOutage, None);
      && o.patientId == Some(p.mrn)
      && |OpenVisitsOf(o.visits, p.mrn)| == |OpenVisitsOf(visits, p.mrn)| + 1
  {
    var o := Admit(patients, visits, form, Some(p), visitId, patientOutage, None);
    var row := o.visits[|visits|];
    assert o.visits == visits + [row];
    FilterConcat(visits, [row], IsOpen);
    var isMrn := (v: VisitRow) => v.mrn == p.mrn;
    FilterConcat(OpenVisits(visits), OpenVisits([row]), isMrn);
    assert OpenVisits([row]) == [row];
    assert VisitsOf([row], p.mrn) == [row];
  }

  /** The admission page's state, over the shared database. */
  class AdmissionForm {
    const db: Db
    var patientData: PatientData
    var existingPatient: Option<PatientData>
    var loading: bool
    var error: string

    constructor (db: Db)
      ensures this.db == db && patientData == EmptyForm && existingPatient == None
      ensures !loading && error == ""
    {
      this.db := db;
      patientData := EmptyForm;
      existingPatient := None;
      loading := false;
      error := "";
    }

    /** `checkExistingPatient(mrn)`: `outage` is the lookup's failure, if it fails. */
    method CheckExistingPatient(mrn: string, outage: Option<string>)
      modifies this`existingPatient
      ensures existingPatient == AfterLookup(old(existingPatient), SelectPatient(db.patients, mrn, outage))
    {
      var reply := SelectPatient(db.patients, mrn, outage);
      if reply.Data? {
        existingPatient := Some(reply.value);
      } else if reply.code == NoRows {
        existingPatient := None;
      }
    }

    /** `handleInputChange`: one input changed. */
    method HandleInputChange(name: string, value: string)
      modifies this`patientData
      ensures patientData == WithField(old(patientData), name, value)
    {
      patientData := WithField(patientData, name, value);
    }

    /** `handleSubmit`: returns the MRN navigated to on success. */
    method HandleSubmit(visitId: string, patientOutage: Option<string>, visitOutage: Option<string>)
      returns (patientId: Option<string>)
      requires db.Valid()
      modifies this`loading, this`error, db
      ensures db.Valid()
      ensures var o := Admit(old(db.patients), old(db.visits), patientData, existingPatient,
                             visitId, patientOutage, visitOutage);
        db.patients == o.patients && db.visits == o.visits && patientId == o.patientId
      ensures !loading
      ensures error == if patientId.Some? then "" else AdmitFailed
    {
      loading := true;
      error := "";
      var id: Option<string>;
      if existingPatient.Some? {
        id := Some(existingPatient.value.mrn);
      } else {
        var reply := db.InsertPatient(patientData, patientOutage);
        id := if reply.Data? then Some(reply.value.mrn) else None;
      }
      if id.Some? {
        var stamp := AdmissionStamp(patientData.admissionDate, patientData.admissionTime);
        var reply := db.InsertVisit(visitId, id.value, stamp, patientData.specialty, visitOutage);
        if reply.Error? {
          id := None;
        }
      }
      patientId := id;
      if patientId.None? {
        error := AdmitFailed;
      }
      loading := false;
    }
  }
}
