/** The discharge page: it lists the open visits, shows the visit history of
    the patient picked, and closes the picked visit with a timestamp and a note. */
module Discharge {
  import opened Util
  import opened Store

  /** An entry of the candidate list: one open visit and its patient. */
  datatype Candidate = Candidate(
    mrn: string, patientName: string, admissionDate: string, specialty: string, visitId: string)

  /** An entry of the selected patient's visit history. */
  datatype PastVisit = PastVisit(
    visitId: string, admissionDate: string, dischargeDate: Option<string>, specialty: string)

  const FetchFailed := "Failed to fetch patients"

  function ToCandidate(e: Embedded): Candidate {
    Candidate(e.patient.mrn, e.patient.patientName, e.visit.admissionDate, e.visit.specialty, e.visit.visitId)
  }

  /** The candidate list made from a reply's rows; a null reply gives the empty list. */
  function Formatted(data: Option<seq<Embedded>>): seq<Candidate> {
    if data.None? then [] else Map(data.value, ToCandidate)
  }

  function CandidateIdOf(c: Candidate): string {
    c.visitId
  }

  /** The candidate list a successful fetch produces from the tables. */
  function CandidatesOf(patients: map<string, PatientData>, visits: seq<VisitRow>): seq<Candidate>
    requires TablesValid(patients, visits)
  {
    Formatted(Some(SelectOpenVisits(patients, visits, None).value))
  }

  /** Some open visit carries `id`. */
  predicate HasOpenVisit(visits: seq<VisitRow>, id: string) {
    exists i :: 0 <= i < |visits| && visits[i].visitId == id && IsOpen(visits[i])
  }

  lemma HasOpenVisitCons(v: VisitRow, rest: seq<VisitRow>, id: string)
    ensures HasOpenVisit([v] + rest, id) <==> (v.visitId == id && IsOpen(v)) || HasOpenVisit(rest, id)
  {
    var visits := [v] + rest;
    if v.visitId == id && IsOpen(v) {
      assert visits[0] == v;
    }
    if i :| 0 <= i < |visits| && visits[i].visitId == id && IsOpen(visits[i]) {
      if i > 0 {
        assert rest[i - 1] == visits[i];
      }
    }
    if i :| 0 <= i < |rest| && rest[i].visitId == id && IsOpen(rest[i]) {
      assert visits[i + 1] == rest[i];
    }
  }

  lemma HeadIdNotInTail(visits: seq<VisitRow>)
    requires visits != [] && UniqueIds(visits)
    ensures !HasOpenVisit(visits[1..], visits[0].visitId)
  {
    var rest := visits[1..];
    forall i | 0 <= i < |rest| ensures rest[i].visitId != visits[0].visitId {
      assert rest[i] == visits[i + 1];
    }
  }

  /** The ids of the open visits, in table order. */
  function OpenIds(visits: seq<VisitRow>): seq<string> {
    Map(OpenVisits(visits), VisitIdOf)
  }

  lemma OpenIdsCons(v: VisitRow, rest: seq<VisitRow>)
    ensures OpenIds([v] + rest) == (if IsOpen(v) then [v.visitId] else []) + OpenIds(rest)
  {
    var head := if IsOpen(v) then [v] else [];
    FilterCons(v, rest, IsOpen);
    MapConcat(head, OpenVisits(rest), VisitIdOf);
  }

  /** With unique visit ids, an id occurs once among the open visits' ids when an open
      visit carries it, and not at all otherwise. */
  lemma {:induction false} OpenIdCount(visits: seq<VisitRow>, id: string)
    requires UniqueIds(visits)
    ensures multiset(OpenIds(visits))[id] == if HasOpenVisit(visits, id) then 1 else 0
  {
    if visits != [] {
      var v, rest := visits[0], visits[1..];
      assert visits == [v] + rest;
      OpenIdsCons(v, rest);
      var headIds: seq<string> := if IsOpen(v) then [v.visitId] else [];
      assert multiset(OpenIds(visits)) == multiset(headIds) + multiset(OpenIds(rest));
      UniqueIdsTail(visits);
      OpenIdCount(rest, id);
      HasOpenVisitCons(v, rest, id);
      if v.visitId == id {
        HeadIdNotInTail(visits);
      }
    }
  }

  /** The candidate for one open visit: the visit's fields and its patient's name. */
  function CandidateFor(patients: map<string, PatientData>, v: VisitRow): Candidate
    requires v.mrn in patients
  {
    Candidate(v.mrn, patients[v.mrn].patientName, v.admissionDate, v.specialty, v.visitId)
  }

  /** The fetched list is the open visits, sorted newest first, each made into a candidate. */
  lemma CandidatesFromSorted(patients: map<string, PatientData>, visits: seq<VisitRow>)
    requires TablesValid(patients, visits)
    ensures var sorted := SortNewestFirst(OpenVisits(visits));
      var c := CandidatesOf(patients, visits);
      && |c| == |sorted|
      && (forall k :: 0 <= k < |c| ==>
            (sorted[k] in visits && sorted[k].mrn in patients && c[k] == CandidateFor(patients, sorted[k])))
  {
    var sorted := SortNewestFirst(OpenVisits(visits));
    SortedRowsInTable(visits, IsOpen);
    ReferencesResolve(patients, visits, sorted);
    var joined := Join(patients, sorted);
    assert SelectOpenVisits(patients, visits, None) == Data(joined);
    var c := Map(joined, ToCandidate);
    assert CandidatesOf(patients, visits) == c;
    forall k | 0 <= k < |c| ensures c[k] == CandidateFor(patients, sorted[k]) {
      var v := sorted[k];
      assert v in visits;
      assert patients[v.mrn].mrn == v.mrn;
    }
  }

  /** The fetched list holds exactly one entry per open visit and no other. */
  lemma {:induction false} CandidatesAreOpenVisits(patients: map<string, PatientData>, visits: seq<VisitRow>)
    requires TablesValid(patients, visits)
    ensures var c := CandidatesOf(patients, visits);
      && |c| == |OpenVisits(visits)|
      && forall id :: multiset(Map(c, CandidateIdOf))[id] == if HasOpenVisit(visits, id) then 1 else 0
  {
    var c := CandidatesOf(patients, visits);
    var open := OpenVisits(visits);
    var sorted := SortNewestFirst(open);
    CandidatesFromSorted(patients, visits);
    assert |sorted| == |open| by {
      assert |multiset(sorted)| == |multiset(open)|;
    }
    assert Map(c, CandidateIdOf) == Map(sorted, VisitIdOf);
    MapPermutation(sorted, open, VisitIdOf);
    forall id ensures multiset(Map(c, CandidateIdOf))[id] == if HasOpenVisit(visits, id) then 1 else 0 {
      OpenIdCount(visits, id);
    }
  }

  /** Each entry copies an open visit's id, date and specialty and its patient's MRN and name. */
  lemma {:induction false} CandidatesCopyOpenVisits(patients: map<string, PatientData>, visits: seq<VisitRow>)
    requires TablesValid(patients, visits)
    ensures var c := CandidatesOf(patients, visits);
      forall k :: 0 <= k < |c| ==>
        exists v :: v in visits && IsOpen(v) && v.mrn in patients && c[k] == CandidateFor(patients, v)
  {
    var c := CandidatesOf(patients, visits);
    var open := OpenVisits(visits);
    var sorted := SortNewestFirst(open);
    CandidatesFromSorted(patients, visits);
    forall k | 0 <= k < |c|
      ensures exists v :: v in visits && IsOpen(v) && v.mrn in patients && c[k] == CandidateFor(patients, v)
    {
      var v := sorted[k];
      assert v in multiset(sorted);
      assert v in multiset(open);
      var i :| 0 <= i < |open| && open[i] == v;
    }
  }

  /** The list is in non-increasing `admissionDate` order. */
  lemma {:induction false} CandidatesNewestFirst(patients: map<string, PatientData>, visits: seq<VisitRow>)
    requires TablesValid(patients, visits)
    ensures var c := CandidatesOf(patients, visits);
      forall j, k :: 0 <= j < k < |c| ==> NotBefore(c[j].admissionDate, c[k].admissionDate)
  {
    CandidatesFromSorted(patients, visits);
  }

  function ToPastVisit(v: VisitRow): PastVisit {
    PastVisit(v.visitId, v.admissionDate, v.dischargeDate, v.specialty)
  }

  /** The history list made from a reply's rows; a null reply gives the empty list. */
  function History(data: Option<seq<VisitRow>>): seq<PastVisit> {
    if data.None? then [] else Map(data.value, ToPastVisit)
  }

  /** The history a successful selection loads: that MRN's visits, sorted, as history entries. */
  lemma HistoryOfSorted(visits: seq<VisitRow>, mrn: string)
    ensures History(Some(SelectVisitsOf(visits, mrn, None).value))
         == Map(SortNewestFirst(VisitsOf(visits, mrn)), ToPastVisit)
  {
  }

  /** Selecting a patient loads every visit of that MRN, open or closed, and nothing else. */
  lemma {:induction false} HistoryIsEveryVisitOf(visits: seq<VisitRow>, mrn: string)
    ensures var h := History(Some(SelectVisitsOf(visits, mrn, None).value));
      && multiset(h) == multiset(Map(VisitsOf(visits, mrn), ToPastVisit))
      && (forall v :: v in visits && v.mrn == mrn ==> ToPastVisit(v) in h)
      && (forall e :: e in h ==> exists v :: v in visits && v.mrn == mrn && e == ToPastVisit(v))
  {
    var mine := VisitsOf(visits, mrn);
    var sorted := SortNewestFirst(mine);
    var h := Map(sorted, ToPastVisit);
    HistoryOfSorted(visits, mrn);
    MapPermutation(sorted, mine, ToPastVisit);
    forall v | v in visits && v.mrn == mrn ensures ToPastVisit(v) in h {
      VisitsOfMember(visits, mrn, v);
      assert v in multiset(sorted);
      MapMember(sorted, ToPastVisit, v);
    }
    forall e | e in h ensures exists v :: v in visits && v.mrn == mrn && e == ToPastVisit(v) {
      var k :| 0 <= k < |h| && h[k] == e;
      assert sorted[k] in multiset(mine);
      VisitsOfMember(visits, mrn, sorted[k]);
    }
  }

  /** The history is newest first. */
  lemma {:induction false} HistoryNewestFirst(visits: seq<VisitRow>, mrn: string)
    ensures var h := History(Some(SelectVisitsOf(visits, mrn, None).value));
      forall j, k :: 0 <= j < k < |h| ==> NotBefore(h[j].admissionDate, h[k].admissionDate)
  {
    HistoryOfSorted(visits, mrn);
  }

  /** The `discharge_date` written: date, "T", time and ":00" seconds. */
  function DischargeStamp(date: string, time: string): string {
    date + "T" + time + ":00"
  }

  /** The stamp ends in ":00"; before it, a date without a "T" and the time are recovered. */
  lemma {:induction false} DischargeStampSplits(date: string, time: string)
    requires 'T' !in date
    ensures var s := DischargeStamp(date, time);
      |s| >= 3 && s[|s| - 3..] == ":00" && SplitAtFirst(s[..|s| - 3], 'T') == (date, time)
  {
    var s := DischargeStamp(date, time);
    assert s[..|s| - 3] == date + ['T'] + time;
    SplitJoined(date, 'T', time);
  }

  /** The candidate list without any entry for `mrn`. */
  function WithoutMrn(list: seq<Candidate>, mrn: string): (r: seq<Candidate>)
    ensures forall k :: 0 <= k < |r| ==> r[k].mrn != mrn
    ensures forall c: Candidate :: c.mrn != mrn ==> multiset(r)[c] == multiset(list)[c]
  {
    FilterCount(list, (c: Candidate) => c.mrn != mrn);
    Filter(list, (c: Candidate) => c.mrn != mrn)
  }

  /** The entries that stay keep their order. */
  lemma {:induction false} WithoutMrnKeepsOrder(a: seq<Candidate>, b: seq<Candidate>, mrn: string)
    ensures WithoutMrn(a + b, mrn) == WithoutMrn(a, mrn) + WithoutMrn(b, mrn)
  {
    FilterConcat(a, b, (c: Candidate) => c.mrn != mrn);
  }

  /** Closing a visit does not look at its state: a closed visit, or a stamp before the
      admission, is written all the same, and the update reports success. */
  lemma DischargeIsUnguarded(visits: seq<VisitRow>, i: nat, stamp: string, note: string)
    requires i < |visits|
    ensures var (rows, reply) := UpdateDischargeRows(visits, visits[i].visitId, stamp, note, None);
      && reply.Data?
      && rows[i] == visits[i].(dischargeDate := Some(stamp), dischargeNote := Some(note))
  {
  }

  /** Clearing the list by MRN also hides any other open visit of the same patient, which
      stays open in the table. */
  lemma {:induction false} DischargeHidesOtherOpenVisits(
    patients: map<string, PatientData>, visits: seq<VisitRow>, sel: Candidate, w: VisitRow,
    stamp: string, note: string)
    requires TablesValid(patients, visits)
    requires w in visits && IsOpen(w) && w.mrn == sel.mrn && w.visitId != sel.visitId
    ensures w in SetDischarge(visits, sel.visitId, stamp, note)
    ensures forall c :: c in WithoutMrn(CandidatesOf(patients, visits), sel.mrn) ==> c.visitId != w.visitId
  {
    var i :| 0 <= i < |visits| && visits[i] == w;
    assert SetDischarge(visits, sel.visitId, stamp, note)[i] == w;
    var all := CandidatesOf(patients, visits);
    CandidatesCopyOpenVisits(patients, visits);
    forall c | c in WithoutMrn(all, sel.mrn) ensures c.visitId != w.visitId {
      var k :| 0 <= k < |WithoutMrn(all, sel.mrn)| && WithoutMrn(all, sel.mrn)[k] == c;
      assert c.mrn != sel.mrn;
      assert c in multiset(WithoutMrn(all, sel.mrn));
      assert c in multiset(all);
      var m :| 0 <= m < |all| && all[m] == c;
      var v :| v in visits && IsOpen(v) && v.mrn in patients && c == CandidateFor(patients, v);
      var j :| 0 <= j < |visits| && visits[j] == v;
    }
  }

  /** The discharge page's state, over the shared database. */
  class DischargeView {
    const db: Db
    var patients: seq<Candidate>
    var selectedPatient: Option<Candidate>
    var dischargeDate: string
    var dischargeTime: string
    var dischargeNote: string
    var previousVisits: seq<PastVisit>
    var loading: bool
    var error: Option<string>

    constructor (db: Db)
      ensures this.db == db && patients == [] && selectedPatient == None
      ensures dischargeDate == "" && dischargeTime == "" && dischargeNote == ""
      ensures previousVisits == [] && loading && error == None
    {
      this.db := db;
      patients := [];
      selectedPatient := None;
      dischargeDate, dischargeTime, dischargeNote := "", "", "";
      previousVisits := [];
      loading := true;
      error := None;
    }

    /** `fetchPatients`: `outage` is the query's failure, if it fails. */
    method FetchPatients(outage: Option<string>)
      requires db.Valid()
      modifies this`patients, this`loading, this`error
      ensures !loading
      ensures outage.None? ==> patients == CandidatesOf(db.patients, db.visits) && error == old(error)
      ensures outage.Some? ==> patients == old(patients) && error == Some(FetchFailed)
    {
      loading := true;
      var reply := SelectOpenVisits(db.patients, db.visits, outage);
      if reply.Data? {
        patients := Formatted(Some(reply.value));
      } else {
        error := Some(FetchFailed);
      }
      loading := false;
    }

    /** `handlePatientSelect(patient)` */
    method HandlePatientSelect(patient: Candidate, outage: Option<string>)
      modifies this`selectedPatient, this`previousVisits
      ensures selectedPatient == Some(patient)
      ensures outage.None? ==> previousVisits == History(Some(SelectVisitsOf(db.visits, patient.mrn, None).value))
      ensures outage.Some? ==> previousVisits == old(previousVisits)
    {
      selectedPatient := Some(patient);
      var reply := SelectVisitsOf(db.visits, patient.mrn, outage);
      if reply.Data? {
        previousVisits := History(Some(reply.value));
      }
    }

    /** The selection and both discharge inputs are filled in. */
    predicate Ready()
      reads this
    {
      selectedPatient.Some? && dischargeDate != "" && dischargeTime != ""
    }

    /** `handleDischarge`: `outage` is the update's failure, if it fails. */
    method HandleDischarge(outage: Option<string>)
      requires db.Valid()
      modifies this`patients, this`selectedPatient, this`dischargeDate, this`dischargeTime
      modifies this`dischargeNote, this`previousVisits, db
      ensures db.Valid()
      // A missing selection, date or time changes nothing.
      ensures !old(Ready()) ==> unchanged(this) && unchanged(db)
      // The update writes the stamp and note on the selected visit id, and nothing else.
      ensures old(Ready()) ==>
        && db.visits == UpdateDischargeRows(old(db.visits), old(selectedPatient.value.visitId),
                          DischargeStamp(old(dischargeDate), old(dischargeTime)), old(dischargeNote), outage).0
        && db.patients == old(db.patients)
      // A failed update leaves the page as it was.
      ensures old(Ready()) && outage.Some? ==> unchanged(this)
      // A successful one drops the MRN from the list and resets the form.
      ensures old(Ready()) && outage.None? ==>
        && patients == WithoutMrn(old(patients), old(selectedPatient.value.mrn))
        && selectedPatient == None
        && dischargeDate == "" && dischargeTime == "" && dischargeNote == ""
        && previousVisits == []
    {
      if Ready() {
        var sel := selectedPatient.value;
        var stamp := DischargeStamp(dischargeDate, dischargeTime);
        var reply := db.UpdateDischarge(sel.visitId, stamp, dischargeNote, outage);
        assert reply.Data? <==> outage.None?;
        if reply.Data? {
          patients := WithoutMrn(patients, sel.mrn);
          selectedPatient := None;
          dischargeDate, dischargeTime, dischargeNote := "", "", "";
          previousVisits := [];
        }
      }
    }
  }
}
