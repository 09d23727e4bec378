/** The two tables the components read and write through the hosted database
    client, as an in-memory store: `patients`, keyed by medical record number
    (MRN), and `visits`, one row per admission episode. Every query or write a
    component issues is one operation here. Each takes `outage`: None when the
    service answers, Some(code) when the call fails with that error code and
    changes nothing. */
module Store {
  import opened Util

  /** A `patients` row; it has the same eight text columns as the admission form. */
  datatype PatientData = PatientData(
    mrn: string, patientName: string, age: string, gender: string,
    admissionDate: string, admissionTime: string, assignedDoctor: string, specialty: string)

  /** A `visits` row; `dischargeDate` is None (SQL null) while the patient is admitted. */
  datatype VisitRow = VisitRow(
    visitId: string, mrn: string, admissionDate: string, dischargeDate: Option<string>,
    specialty: string, dischargeNote: Option<string>)

  /** A visit row with the patient row it references embedded, as `patients (...)` selects it. */
  datatype Embedded = Embedded(visit: VisitRow, patient: PatientData)

  /** What the client hands back: the data, or an error with its code. */
  datatype Reply<T> = Data(value: T) | Error(code: string)

  const NoRows := "PGRST116"            // a single-row select matched no row
  const UniqueViolation := "23505"      // a primary key that is already taken
  const ForeignKeyViolation := "23503"  // a visit for an MRN with no patient row

  /** The schema's constraints: MRN is the patients key, `visit_id` is the visits key,
      and every visit references an existing patient. */
  predicate TablesValid(patients: map<string, PatientData>, visits: seq<VisitRow>) {
    && (forall m :: m in patients ==> patients[m].mrn == m)
    && UniqueIds(visits)
    && (forall i :: 0 <= i < |visits| ==> visits[i].mrn in patients)
  }

  /** No two visit rows share a `visit_id`. */
  predicate UniqueIds(visits: seq<VisitRow>) {
    forall i, j :: 0 <= i < j < |visits| ==> visits[i].visitId != visits[j].visitId
  }

  lemma UniqueIdsTail(visits: seq<VisitRow>)
    requires visits != [] && UniqueIds(visits)
    ensures UniqueIds(visits[1..])
  {
    var rest := visits[1..];
    forall i, j | 0 <= i < j < |rest| ensures rest[i].visitId != rest[j].visitId {
      assert rest[i] == visits[i + 1] && rest[j] == visits[j + 1];
    }
  }

  predicate IsOpen(v: VisitRow) {
    v.dischargeDate.None?
  }

  function VisitIdOf(v: VisitRow): string {
    v.visitId
  }

  predicate IdTaken(visits: seq<VisitRow>, visitId: string) {
    exists i :: 0 <= i < |visits| && visits[i].visitId == visitId
  }

  // ---------------------------------------------------------------------------
  // Ordering by `admission_date`, newest first

  /** Text `a` sorts at or after text `b`, comparing character by character. */
  predicate NotBefore(a: string, b: string)
    decreases |b|
  {
    b == [] || (a != [] && (a[0] > b[0] || (a[0] == b[0] && NotBefore(a[1..], b[1..]))))
  }

  lemma {:induction false} NotBeforeTotal(a: string, b: string)
    ensures NotBefore(a, b) || NotBefore(b, a)
    decreases |a|
  {
    if a != [] && b != [] && a[0] == b[0] {
      NotBeforeTotal(a[1..], b[1..]);
    }
  }

  lemma {:induction false} NotBeforeTransitive(a: string, b: string, c: string)
    requires NotBefore(a, b) && NotBefore(b, c)
    ensures NotBefore(a, c)
    decreases |c|
  {
    if c != [] && a[0] == c[0] {
      NotBeforeTransitive(a[1..], b[1..], c[1..]);
    }
  }

  /** A result ordered by descending `admission_date`. */
  predicate NewestFirst(s: seq<VisitRow>) {
    forall i, j :: 0 <= i < j < |s| ==> NotBefore(s[i].admissionDate, s[j].admissionDate)
  }

  /** A row that sorts before the head keeps the head in front of anything it is inserted into. */
  lemma {:induction false} HeadStaysFirst(v: VisitRow, s: seq<VisitRow>, t: seq<VisitRow>)
    requires s != [] && NewestFirst(s) && NewestFirst(t)
    requires !NotBefore(v.admissionDate, s[0].admissionDate)
    requires multiset(t) == multiset{v} + multiset(s[1..])
    ensures NewestFirst([s[0]] + t)
  {
    NotBeforeTotal(v.admissionDate, s[0].admissionDate);
    forall k | 0 <= k < |t| ensures NotBefore(s[0].admissionDate, t[k].admissionDate) {
      assert t[k] in multiset(t);
      if t[k] != v {
        assert t[k] in multiset(s[1..]);
        var i :| 0 <= i < |s[1..]| && s[1..][i] == t[k];
        assert s[i + 1] == t[k];
      }
    }
  }

  function InsertByDate(v: VisitRow, s: seq<VisitRow>): (r: seq<VisitRow>)
    requires NewestFirst(s)
    ensures NewestFirst(r)
    ensures multiset(r) == multiset{v} + multiset(s)
  {
    if s == [] then [v]
    else if NotBefore(v.admissionDate, s[0].admissionDate) then
      assert NewestFirst([v] + s) by {
        forall j | 0 < j < |s| ensures NotBefore(v.admissionDate, s[j].admissionDate) {
          NotBeforeTransitive(v.admissionDate, s[0].admissionDate, s[j].admissionDate);
        }
      }
      [v] + s
    else
      var t := InsertByDate(v, s[1..]);
      assert s == [s[0]] + s[1..];
      HeadStaysFirst(v, s, t);
      [s[0]] + t
  }

  /** The store's sort: a permutation of `s` in non-increasing `admissionDate` order. */
  function SortNewestFirst(s: seq<VisitRow>): (r: seq<VisitRow>)
    ensures NewestFirst(r)
    ensures multiset(r) == multiset(s)
  {
    if s == [] then []
    else
      assert s == [s[0]] + s[1..];
      InsertByDate(s[0], SortNewestFirst(s[1..]))
  }

  // ---------------------------------------------------------------------------
  // Queries

  /** Embeds each visit's patient row, found through the foreign key. */
  function Join(patients: map<string, PatientData>, vs: seq<VisitRow>): (r: seq<Embedded>)
    requires forall v :: v in vs ==> v.mrn in patients
    ensures |r| == |vs|
    ensures forall i :: 0 <= i < |vs| ==> r[i] == Embedded(vs[i], patients[vs[i].mrn])
  {
    seq(|vs|, i requires 0 <= i < |vs| => Embedded(vs[i], patients[vs[i].mrn]))
  }

  /** The single `patients` row with this MRN. */
  function SelectPatient(patients: map<string, PatientData>, mrn: string, outage: Option<string>)
    : Reply<PatientData>
  {
    if outage.Some? then Error(outage.value)
    else if mrn in patients then Data(patients[mrn])
    else Error(NoRows)
  }

  function OpenVisits(visits: seq<VisitRow>): seq<VisitRow> {
    Filter(visits, IsOpen)
  }

  function VisitsOf(visits: seq<VisitRow>, mrn: string): seq<VisitRow> {
    Filter(visits, (v: VisitRow) => v.mrn == mrn)
  }

  lemma VisitsOfMember(visits: seq<VisitRow>, mrn: string, v: VisitRow)
    ensures v in VisitsOf(visits, mrn) <==> v in visits && v.mrn == mrn
  {
    FilterMember(visits, (v: VisitRow) => v.mrn == mrn, v);
  }

  /** Every row of a sorted query result is a row of the `visits` table. */
  lemma SortedRowsInTable(visits: seq<VisitRow>, p: VisitRow -> bool)
    ensures forall v :: v in SortNewestFirst(Filter(visits, p)) ==> v in visits
  {
    var f := Filter(visits, p);
    forall v | v in SortNewestFirst(f) ensures v in visits {
      assert v in multiset(SortNewestFirst(f));
      assert v in multiset(f);
      var i :| 0 <= i < |f| && f[i] == v;
    }
  }

  lemma ReferencesResolve(patients: map<string, PatientData>, visits: seq<VisitRow>, vs: seq<VisitRow>)
    requires TablesValid(patients, visits)
    requires forall v :: v in vs ==> v in visits
    ensures forall v :: v in vs ==> v.mrn in patients
  {
  }

  /** The visits whose `discharge_date` is null, newest first, each with its patient row. */
  function SelectOpenVisits(patients: map<string, PatientData>, visits: seq<VisitRow>, outage: Option<string>)
    : Reply<seq<Embedded>>
    requires TablesValid(patients, visits)
  {
    if outage.Some? then Error(outage.value)
    else
      var sorted := SortNewestFirst(OpenVisits(visits));
      SortedRowsInTable(visits, IsOpen);
      ReferencesResolve(patients, visits, sorted);
      Data(Join(patients, sorted))
  }

  /** Every visit of one MRN, newest first. */
  function SelectVisitsOf(visits: seq<VisitRow>, mrn: string, outage: Option<string>): Reply<seq<VisitRow>> {
    if outage.Some? then Error(outage.value) else Data(SortNewestFirst(VisitsOf(visits, mrn)))
  }

  /** Every visit, each with its patient row, in storage order (the query asks for no order). */
  function SelectAllVisits(patients: map<string, PatientData>, visits: seq<VisitRow>, outage: Option<string>)
    : Reply<seq<Embedded>>
    requires TablesValid(patients, visits)
  {
    if outage.Some? then Error(outage.value)
    else
      ReferencesResolve(patients, visits, visits);
      Data(Join(patients, visits))
  }

  // ---------------------------------------------------------------------------
  // Writes

  /** Inserts one `patients` row and returns it; the MRN is the primary key. */
  function InsertPatientRow(patients: map<string, PatientData>, row: PatientData, outage: Option<string>)
    : (r: (map<string, PatientData>, Reply<PatientData>))
    ensures r.1.Data? <==> outage.None? && row.mrn !in patients
    ensures r.1.Data? ==> r.0 == patients[row.mrn := row] && r.1.value == row
    ensures r.1.Error? ==> r.0 == patients
  {
    if outage.Some? then (patients, Error(outage.value))
    else if row.mrn in patients then (patients, Error(UniqueViolation))
    else (patients[row.mrn := row], Data(row))
  }

  /** Inserts one `visits` row from an MRN, an admission date and a specialty, and returns it: the
      database generates `visitId` and leaves both discharge columns null. */
  function InsertVisitRow(
    patients: map<string, PatientData>, visits: seq<VisitRow>,
    visitId: string, mrn: string, admissionDate: string, specialty: string, outage: Option<string>)
    : (r: (seq<VisitRow>, Reply<VisitRow>))
    ensures r.1.Data? <==> outage.None? && mrn in patients && !IdTaken(visits, visitId)
    ensures r.1.Data? ==>
      && r.1.value == VisitRow(visitId, mrn, admissionDate, None, specialty, None)
      && r.0 == visits + [r.1.value]
    ensures r.1.Error? ==> r.0 == visits
  {
    if outage.Some? then (visits, Error(outage.value))
    else if mrn !in patients then (visits, Error(ForeignKeyViolation))
    else if IdTaken(visits, visitId) then (visits, Error(UniqueViolation))
    else
      var row := VisitRow(visitId, mrn, admissionDate, None, specialty, None);
      (visits + [row], Data(row))
  }

  /** The rows after writing a discharge date and note on every row with id `visitId`. */
  function SetDischarge(visits: seq<VisitRow>, visitId: string, dischargeDate: string, note: string)
    : (r: seq<VisitRow>)
    ensures |r| == |visits|
    ensures forall i :: 0 <= i < |visits| ==>
      r[i] == if visits[i].visitId == visitId
              then visits[i].(dischargeDate := Some(dischargeDate), dischargeNote := Some(note))
              else visits[i]
  {
    if visits == [] then []
    else
      var v := visits[0];
      var head := if v.visitId == visitId
                  then v.(dischargeDate := Some(dischargeDate), dischargeNote := Some(note))
                  else v;
      [head] + SetDischarge(visits[1..], visitId, dischargeDate, note)
  }

  /** Writes a discharge date and note on the rows with id `visitId`:
      a filter that matches no row is not an error. */
  function UpdateDischargeRows(
    visits: seq<VisitRow>, visitId: string, dischargeDate: string, note: string, outage: Option<string>)
    : (r: (seq<VisitRow>, Reply<()>))
  {
    if outage.Some? then (visits, Error(outage.value))
    else (SetDischarge(visits, visitId, dischargeDate, note), Data(()))
  }

  /** The hosted database, shared by all components. */
  class Db {
    var patients: map<string, PatientData>
    var visits: seq<VisitRow>

    predicate Valid()
      reads this
    {
      TablesValid(patients, visits)
    }

    constructor ()
      ensures Valid() && patients == map[] && visits == []
    {
      patients := map[];
      visits := [];
    }

    method InsertPatient(row: PatientData, outage: Option<string>) returns (reply: Reply<PatientData>)
      requires Valid()
      modifies this
      ensures Valid()
      ensures (patients, reply) == InsertPatientRow(old(patients), row, outage)
      ensures visits == old(visits)
    {
      var r := InsertPatientRow(patients, row, outage);
      patients, reply := r.0, r.1;
    }

    method InsertVisit(visitId: string, mrn: string, admissionDate: string, specialty: string, outage: Option<string>)
      returns (reply: Reply<VisitRow>)
      requires Valid()
      modifies this
      ensures Valid()
      ensures (visits, reply) == InsertVisitRow(old(patients), old(visits), visitId, mrn, admissionDate, specialty, outage)
      ensures patients == old(patients)
    {
      var r := InsertVisitRow(patients, visits, visitId, mrn, admissionDate, specialty, outage);
      visits, reply := r.0, r.1;
    }

    method UpdateDischarge(visitId: string, dischargeDate: string, note: string, outage: Option<string>)
      returns (reply: Reply<()>)
      requires Valid()
      modifies this
      ensures Valid()
      ensures (visits, reply) == UpdateDischargeRows(old(visits), visitId, dischargeDate, note, outage)
      ensures patients == old(patients)
    {
      var r := UpdateDischargeRows(visits, visitId, dischargeDate, note, outage);
      visits, reply := r.0, r.1;
    }
  }
}
