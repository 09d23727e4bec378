/** The specialty roster: every visit, grouped under a fixed list of nine
    specialties, each group split into active and discharged patients. */
module Roster {
  import opened Util
  import opened Store

  const SpecialtiesList: seq<string> := [
    "General Internal Medicine",
    "Respiratory Medicine",
    "Infectious Diseases",
    "Neurology",
    "Gastroenterology",
    "Rheumatology",
    "Hematology",
    "Thrombosis Medicine",
    "Immunology & Allergy"
  ]

  const FetchFailed := "Failed to fetch patients"

  datatype Status = Active | Discharged

  /** One patient entry of a group. */
  datatype Entry = Entry(
    mrn: string, patientName: string, admissionDate: string, dischargeDate: Option<string>, status: Status)

  /** One group of the roster. */
  datatype Specialty = Specialty(name: string, activePatients: seq<Entry>, dischargedPatients: seq<Entry>)

  /** JavaScript truthiness of a nullable text column: null and "" are both falsy. */
  predicate Truthy(d: Option<string>) {
    d.Some? && d.value != ""
  }

  predicate IsActiveRow(e: Embedded) {
    !Truthy(e.visit.dischargeDate)
  }

  predicate IsDischargedRow(e: Embedded) {
    Truthy(e.visit.dischargeDate)
  }

  /** The rows whose visit is of specialty `name`, in input order. */
  function OfSpecialty(rows: seq<Embedded>, name: string): seq<Embedded> {
    Filter(rows, (e: Embedded) => e.visit.specialty == name)
  }

  function ActiveEntry(e: Embedded): Entry {
    Entry(e.visit.mrn, e.patient.patientName, e.visit.admissionDate, None, Active)
  }

  function DischargedEntry(e: Embedded): Entry {
    Entry(e.visit.mrn, e.patient.patientName, e.visit.admissionDate, e.visit.dischargeDate, Discharged)
  }

  /** Splitting rows by the truthiness of `discharge_date` is a partition: each row lands
      in exactly one of the two lists. */
  lemma {:induction false} ActiveDischargedPartition(rows: seq<Embedded>)
    ensures multiset(Filter(rows, IsActiveRow)) + multiset(Filter(rows, IsDischargedRow)) == multiset(rows)
    ensures |Filter(rows, IsActiveRow)| + |Filter(rows, IsDischargedRow)| == |rows|
    ensures forall e :: !(e in Filter(rows, IsActiveRow) && e in Filter(rows, IsDischargedRow))
  {
    var a, d := Filter(rows, IsActiveRow), Filter(rows, IsDischargedRow);
    FilterCount(rows, IsActiveRow);
    FilterCount(rows, IsDischargedRow);
    assert forall e :: (multiset(a) + multiset(d))[e] == multiset(rows)[e];
    assert multiset(a) + multiset(d) == multiset(rows);
    assert |multiset(a) + multiset(d)| == |multiset(rows)|;
  }

  /** The group named `name`. */
  function GroupFor(name: string, rows: seq<Embedded>): (g: Specialty)
    ensures g.name == name
    ensures |g.activePatients| + |g.dischargedPatients| == |OfSpecialty(rows, name)|
    ensures forall k :: 0 <= k < |g.activePatients| ==>
      g.activePatients[k].status == Active && g.activePatients[k].dischargeDate.None?
    ensures forall k :: 0 <= k < |g.dischargedPatients| ==>
      g.dischargedPatients[k].status == Discharged && Truthy(g.dischargedPatients[k].dischargeDate)
  {
    var patients := OfSpecialty(rows, name);
    var active, discharged := Filter(patients, IsActiveRow), Filter(patients, IsDischargedRow);
    ActiveDischargedPartition(patients);
    Specialty(name, Map(active, ActiveEntry), Map(discharged, DischargedEntry))
  }

  /** One group per listed specialty, in list order, over the reply's rows; null rows read as none. */
  function BuildRoster(data: Option<seq<Embedded>>): (r: seq<Specialty>)
    ensures |r| == |SpecialtiesList|
    ensures forall i :: 0 <= i < |r| ==> r[i].name == SpecialtiesList[i]
    ensures data.None? ==>
      forall i :: 0 <= i < |r| ==> r[i].activePatients == [] && r[i].dischargedPatients == []
  {
    var rows := if data.None? then [] else data.value;
    Map(SpecialtiesList, (name: string) => GroupFor(name, rows))
  }

  /** The two lists of a group, unfolded. */
  lemma GroupLists(name: string, rows: seq<Embedded>)
    ensures GroupFor(name, rows).activePatients == Map(Filter(OfSpecialty(rows, name), IsActiveRow), ActiveEntry)
    ensures GroupFor(name, rows).dischargedPatients == Map(Filter(OfSpecialty(rows, name), IsDischargedRow), DischargedEntry)
  {
  }

  /** The `k`th row kept by a filter over the specialty's rows is one of the input rows,
      of that specialty, and satisfies the filter. */
  lemma KeptRow(name: string, rows: seq<Embedded>, p: Embedded -> bool, k: nat)
    requires k < |Filter(OfSpecialty(rows, name), p)|
    ensures var e := Filter(OfSpecialty(rows, name), p)[k];
      e in rows && e.visit.specialty == name && p(e)
  {
    var e := Filter(OfSpecialty(rows, name), p)[k];
    FilterMember(rows, (e: Embedded) => e.visit.specialty == name, e);
  }

  /** Each active entry of a group is made from an active row of its specialty. */
  lemma {:induction false} ActiveEntriesFromRows(name: string, rows: seq<Embedded>)
    ensures var g := GroupFor(name, rows);
      forall k :: 0 <= k < |g.activePatients| ==>
        exists e :: e in rows && e.visit.specialty == name && IsActiveRow(e) && g.activePatients[k] == ActiveEntry(e)
  {
    var kept := Filter(OfSpecialty(rows, name), IsActiveRow);
    var entries := GroupFor(name, rows).activePatients;
    GroupLists(name, rows);
    forall k | 0 <= k < |entries|
      ensures exists e :: e in rows && e.visit.specialty == name && IsActiveRow(e) && entries[k] == ActiveEntry(e)
    {
      KeptRow(name, rows, IsActiveRow, k);
      assert entries[k] == ActiveEntry(kept[k]);
    }
  }

  /** Each discharged entry of a group is made from a discharged row of its specialty. */
  lemma {:induction false} DischargedEntriesFromRows(name: string, rows: seq<Embedded>)
    ensures var g := GroupFor(name, rows);
      forall k :: 0 <= k < |g.dischargedPatients| ==>
        exists e :: e in rows && e.visit.specialty == name && IsDischargedRow(e) && g.dischargedPatients[k] == DischargedEntry(e)
  {
    var kept := Filter(OfSpecialty(rows, name), IsDischargedRow);
    var entries := GroupFor(name, rows).dischargedPatients;
    GroupLists(name, rows);
    forall k | 0 <= k < |entries|
      ensures exists e :: e in rows && e.visit.specialty == name && IsDischargedRow(e) && entries[k] == DischargedEntry(e)
    {
      KeptRow(name, rows, IsDischargedRow, k);
      assert entries[k] == DischargedEntry(kept[k]);
    }
  }

  /** Every row of the specialty has its entry in the group, in the list its discharge
      date selects. */
  lemma {:induction false} GroupHasEveryRow(name: string, rows: seq<Embedded>, e: Embedded)
    requires e in rows && e.visit.specialty == name
    ensures IsActiveRow(e) ==> ActiveEntry(e) in GroupFor(name, rows).activePatients
    ensures IsDischargedRow(e) ==> DischargedEntry(e) in GroupFor(name, rows).dischargedPatients
  {
    var mine := OfSpecialty(rows, name);
    FilterMember(rows, (e: Embedded) => e.visit.specialty == name, e);
    GroupLists(name, rows);
    if IsActiveRow(e) {
      FilterMember(mine, IsActiveRow, e);
      MapMember(Filter(mine, IsActiveRow), ActiveEntry, e);
    } else {
      FilterMember(mine, IsDischargedRow, e);
      MapMember(Filter(mine, IsDischargedRow), DischargedEntry, e);
    }
  }

  /** How many times row `e` is placed in the groups named by `names`. */
  function Placements(names: seq<string>, rows: seq<Embedded>, e: Embedded): nat {
    if names == [] then 0
    else multiset(OfSpecialty(rows, names[0]))[e] + Placements(names[1..], rows, e)
  }

  predicate Distinct(names: seq<string>) {
    forall i, j :: 0 <= i < j < |names| ==> names[i] != names[j]
  }

  /** Over distinct group names, a row is placed as often as it occurs when its specialty is
      one of the names, and never otherwise. */
  lemma {:induction false} PlacedOnceIfListed(names: seq<string>, rows: seq<Embedded>, e: Embedded)
    requires Distinct(names)
    ensures Placements(names, rows, e) == if e.visit.specialty in names then multiset(rows)[e] else 0
  {
    if names != [] {
      var tail := names[1..];
      assert Distinct(tail) by {
        forall i, j | 0 <= i < j < |tail| ensures tail[i] != tail[j] {
          assert tail[i] == names[i + 1] && tail[j] == names[j + 1];
        }
      }
      PlacedOnceIfListed(tail, rows, e);
      FilterCount(rows, (e: Embedded) => e.visit.specialty == names[0]);
      assert names == [names[0]] + tail;
      if e.visit.specialty == names[0] {
        assert names[0] !in tail by {
          forall i | 0 <= i < |tail| ensures tail[i] != names[0] {
            assert tail[i] == names[i + 1];
          }
        }
      }
    }
  }

  lemma SpecialtiesDistinct()
    ensures Distinct(SpecialtiesList)
  {
  }

  /** Every visit of a listed specialty is placed in exactly one group, in its active or its
      discharged list; a visit of any other specialty is placed nowhere. */
  lemma {:induction false} EachVisitPlacedOnce(rows: seq<Embedded>, e: Embedded)
    ensures Placements(SpecialtiesList, rows, e)
         == if e.visit.specialty in SpecialtiesList then multiset(rows)[e] else 0
    ensures forall i :: 0 <= i < |SpecialtiesList| ==>
      multiset(OfSpecialty(rows, SpecialtiesList[i]))[e]
        == multiset(Filter(OfSpecialty(rows, SpecialtiesList[i]), IsActiveRow))[e]
         + multiset(Filter(OfSpecialty(rows, SpecialtiesList[i]), IsDischargedRow))[e]
  {
    SpecialtiesDistinct();
    PlacedOnceIfListed(SpecialtiesList, rows, e);
    forall i | 0 <= i < |SpecialtiesList|
      ensures multiset(OfSpecialty(rows, SpecialtiesList[i]))[e]
           == multiset(Filter(OfSpecialty(rows, SpecialtiesList[i]), IsActiveRow))[e]
            + multiset(Filter(OfSpecialty(rows, SpecialtiesList[i]), IsDischargedRow))[e]
    {
      ActiveDischargedPartition(OfSpecialty(rows, SpecialtiesList[i]));
    }
  }

  /** Each list keeps the input order: the rows of `a` come before those of `b`. */
  lemma {:induction false} RosterKeepsInputOrder(a: seq<Embedded>, b: seq<Embedded>, i: nat)
    requires i < |SpecialtiesList|
    ensures var name := SpecialtiesList[i];
      && BuildRoster(Some(a + b))[i].activePatients
           == BuildRoster(Some(a))[i].activePatients + BuildRoster(Some(b))[i].activePatients
      && BuildRoster(Some(a + b))[i].dischargedPatients
           == BuildRoster(Some(a))[i].dischargedPatients + BuildRoster(Some(b))[i].dischargedPatients
  {
    var name := SpecialtiesList[i];
    var inName := (e: Embedded) => e.visit.specialty == name;
    FilterConcat(a, b, inName);
    var ma, mb := OfSpecialty(a, name), OfSpecialty(b, name);
    FilterConcat(ma, mb, IsActiveRow);
    FilterConcat(ma, mb, IsDischargedRow);
    MapConcat(Filter(ma, IsActiveRow), Filter(mb, IsActiveRow), ActiveEntry);
    MapConcat(Filter(ma, IsDischargedRow), Filter(mb, IsDischargedRow), DischargedEntry);
  }

  /** The roster page's state. */
  datatype RosterView = RosterView(specialties: seq<Specialty>, loading: bool, error: Option<string>)

  /** `fetchPatients`: a reply's rows become the roster; an error keeps the old roster. */
  function AfterFetch(before: RosterView, reply: Reply<seq<Embedded>>): (after: RosterView)
    ensures !after.loading
    ensures reply.Data? ==> after.specialties == BuildRoster(Some(reply.value)) && after.error == before.error
    ensures reply.Error? ==> after.specialties == before.specialties && after.error == Some(FetchFailed)
  {
    match reply
    case Data(rows) => before.(specialties := BuildRoster(Some(rows)), loading := false)
    case Error(_) => before.(error := Some(FetchFailed), loading := false)
  }

  /** After a successful fetch, every visit of a listed specialty shows up in that
      specialty's group, in the list its discharge date selects. */
  lemma {:induction false} FetchShowsEveryVisit(
    patients: map<string, PatientData>, visits: seq<VisitRow>, before: RosterView, v: VisitRow)
    requires TablesValid(patients, visits)
    requires v in visits && v.mrn in patients && v.specialty in SpecialtiesList
    ensures var r := AfterFetch(before, SelectAllVisits(patients, visits, None)).specialties;
      var e := Embedded(v, patients[v.mrn]);
      exists i :: 0 <= i < |r| && r[i].name == v.specialty &&
        (if IsActiveRow(e)
         then ActiveEntry(e) in r[i].activePatients
         else DischargedEntry(e) in r[i].dischargedPatients)
  {
    var r := AfterFetch(before, SelectAllVisits(patients, visits, None)).specialties;
    var e := Embedded(v, patients[v.mrn]);
    ReferencesResolve(patients, visits, visits);
    var rows := Join(patients, visits);
    assert r == BuildRoster(Some(rows));
    var k :| 0 <= k < |visits| && visits[k] == v;
    assert rows[k] == e;
    var i :| 0 <= i < |SpecialtiesList| && SpecialtiesList[i] == v.specialty;
    assert r[i] == GroupFor(v.specialty, rows);
    GroupHasEveryRow(v.specialty, rows, e);
  }
}
