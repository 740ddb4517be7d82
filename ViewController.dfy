/**
 * The decision logic of the dashboard controller: the toggle rules that put
 * patients into and out of the monitoring lists, the eligibility rule of the
 * historic systolic list, the highlight classification of a blood-pressure
 * row and of a cholesterol row, and the text of the historic column.
 * Widgets, charts and the refresh timer are not modelled.
 */
module ViewControllers {

  import opened Optional
  import opened Encounters
  import opened Patients
  import opened MonitoringLists
  import opened MonitoringListAverages
  import Text

  /** How a blood-pressure row is highlighted ('systolic', 'diastolic', 'allBloodPressure' or None). */
  datatype Highlight = NoHighlight | SystolicHigh | DiastolicHigh | AllBloodPressure

  /**
   * The latest systolic reading exceeds X. X is an int, so rounding it to two
   * decimals changes nothing; X == 0 is falsy and switches the check off.
   */
  predicate SystolicAbove(systolic: seq<Encounter>, x: int)
  {
    systolic != [] && x != 0 && systolic[0].GetValue() > x as real
  }

  /** The latest diastolic reading exceeds Y (Y == 0 switches the check off). */
  predicate DiastolicAbove(diastolic: seq<Encounter>, y: int)
  {
    diastolic != [] && y != 0 && diastolic[0].GetValue() > y as real
  }

  /** The highlight of a blood-pressure row, from the two patients' reading lists. */
  function Classify(systolic: seq<Encounter>, diastolic: seq<Encounter>, x: int, y: int): (h: Highlight)
    ensures h == AllBloodPressure <==> SystolicAbove(systolic, x) && DiastolicAbove(diastolic, y)
    ensures h == SystolicHigh <==> SystolicAbove(systolic, x) && !DiastolicAbove(diastolic, y)
    ensures h == DiastolicHigh <==> !SystolicAbove(systolic, x) && DiastolicAbove(diastolic, y)
    ensures h == NoHighlight <==> !SystolicAbove(systolic, x) && !DiastolicAbove(diastolic, y)
  {
    var highlight := if SystolicAbove(systolic, x) then SystolicHigh else NoHighlight;
    if DiastolicAbove(diastolic, y) then
      if highlight == SystolicHigh then AllBloodPressure else DiastolicHigh
    else highlight
  }

  /** The row's tag: red for systolic, blue for diastolic, purple for both, none otherwise. */
  function RowTag(h: Highlight): (tag: Option<string>)
    ensures tag.None? <==> h == NoHighlight
  {
    match h
    case SystolicHigh => Some("red font")
    case DiastolicHigh => Some("blue font")
    case AllBloodPressure => Some("purple font")
    case NoHighlight => None
  }

  /** Each highlight has its own tag, so the colour alone tells which side of a row is high. */
  lemma RowTagsDistinct(g: Highlight, h: Highlight)
    ensures RowTag(g) == RowTag(h) ==> g == h
  {
    assert "red font"[0] != "blue font"[0] && "blue font"[0] != "purple font"[0] && "red font"[0] != "purple font"[0];
  }

  /** The row's historic column: clickable only when the systolic side is highlighted. */
  function HistoricCell(h: Highlight): string
  {
    if h == SystolicHigh || h == AllBloodPressure then "Click Here" else "Not Available"
  }

  /** A row offers historic monitoring exactly when its latest systolic reading is above a set X. */
  lemma HistoricCellOffered(systolic: seq<Encounter>, diastolic: seq<Encounter>, x: int, y: int)
    ensures HistoricCell(Classify(systolic, diastolic, x, y)) == "Click Here" <==> SystolicAbove(systolic, x)
  {
    assert "Click Here" != "Not Available" by {
      assert "Click Here"[0] != "Not Available"[0];
    }
  }

  /** Whatever the diastolic side, X == 0 never highlights the systolic side. */
  lemma ZeroXDisablesSystolic(systolic: seq<Encounter>, diastolic: seq<Encounter>, y: int)
    ensures Classify(systolic, diastolic, 0, y) in {NoHighlight, DiastolicHigh}
  {
  }

  /** Five concrete rows, as the code classifies them. */
  lemma ClassifyExamples()
    ensures Classify([Encounter(Systolic, "t", 150.0)], [Encounter(Diastolic, "t", 80.0)], 140, 90) == SystolicHigh
    ensures Classify([Encounter(Systolic, "t", 130.0)], [Encounter(Diastolic, "t", 95.0)], 140, 90) == DiastolicHigh
    ensures Classify([Encounter(Systolic, "t", 150.0)], [Encounter(Diastolic, "t", 95.0)], 140, 90) == AllBloodPressure
    ensures Classify([Encounter(Systolic, "t", 130.0)], [Encounter(Diastolic, "t", 80.0)], 140, 90) == NoHighlight
    ensures Classify([], [Encounter(Diastolic, "t", 95.0)], 140, 90) == DiastolicHigh
  {
  }

  /** A cholesterol row: 'No Data' / 'N/A' without a reading, else the latest reading, red or plain. */
  datatype CholesterolRow = NoData | Reading(value: real, dateTime: string, red: bool)

  /**
   * `round2` is Python's `round(_, 2)` on the list's average; floating-point
   * rounding is not modelled, so it is left as a parameter.
   */
  function CholesterolRowOf(encounters: seq<Encounter>, average: real, round2: real -> real): (row: CholesterolRow)
    ensures row.NoData? <==> encounters == []
    ensures row.Reading? ==> row.value == encounters[0].GetValue() && row.dateTime == encounters[0].GetDateTime()
    ensures row.Reading? ==> (row.red <==> encounters[0].GetValue() > round2(average))
  {
    if encounters != [] then
      var encounter := encounters[0];
      Reading(encounter.GetValue(), encounter.GetDateTime(), encounter.GetValue() > round2(average))
    else NoData
  }

  /** A patient may join the historic list only if their latest systolic reading exceeds X (no falsiness check here). */
  predicate HistoricEligible(latest: Option<Encounter>, x: int)
  {
    latest.Some? && latest.value.GetValue() > x as real
  }

  /** Every row that offers "Click Here" in its historic column belongs to an eligible patient. */
  lemma OfferedImpliesEligible(systolic: seq<Encounter>, diastolic: seq<Encounter>, x: int, y: int)
    requires HistoricCell(Classify(systolic, diastolic, x, y)) == "Click Here"
    ensures HistoricEligible(if systolic == [] then None else Some(systolic[0]), x)
  {
    HistoricCellOffered(systolic, diastolic, x, y);
  }

  /** One historic entry: "value (date)". `show` is Python's formatting of a number. */
  function Piece(e: Encounter, show: real -> string): string
  {
    show(e.GetValue()) + " (" + e.GetDateTime() + ")"
  }

  function Pieces(encounters: seq<Encounter>, show: real -> string): (ps: seq<string>)
    ensures |ps| == |encounters|
    ensures forall i :: 0 <= i < |ps| ==> ps[i] == Piece(encounters[i], show)
  {
    if encounters == [] then [] else Pieces(encounters[..|encounters| - 1], show) + [Piece(encounters[|encounters| - 1], show)]
  }

  /** The text the `+=` loop builds: every piece followed by a comma. */
  function Terminated(ps: seq<string>): string
  {
    if ps == [] then "" else Terminated(ps[..|ps| - 1]) + ps[|ps| - 1] + ","
  }

  /** Python's `s[:-1]`: drops the last character, and leaves "" as it is. */
  function DropLast(s: string): string
  {
    if s == "" then s else s[..|s| - 1]
  }

  lemma {:induction false} TerminatedIsJoinAndComma(ps: seq<string>)
    requires ps != []
    ensures Terminated(ps) == Text.Join(ps, ",") + ","
  {
    var n := |ps|;
    if n == 1 {
      assert ps[..0] == [];
    } else {
      TerminatedIsJoinAndComma(ps[..n - 1]);
      Text.JoinSnoc(ps[..n - 1], ",", ps[n - 1]);
      assert ps[..n - 1] + [ps[n - 1]] == ps;
    }
  }

  /** The historic column: the entries joined by ",", with no trailing comma. */
  method HistoricString(encounters: seq<Encounter>, show: real -> string) returns (productString: string)
    ensures productString == Text.Join(Pieces(encounters, show), ",")
  {
    ghost var ps := Pieces(encounters, show);
    productString := "";
    var i := 0;
    while i < |encounters|
      invariant 0 <= i <= |encounters|
      invariant productString == Terminated(ps[..i])
    {
      assert ps[..i + 1][..i] == ps[..i];
      productString := productString + Piece(encounters[i], show) + ",";
      i := i + 1;
    }
    assert ps[..i] == ps;
    if ps != [] {
      TerminatedIsJoinAndComma(ps);
      assert productString[..|productString| - 1] == Text.Join(ps, ",");
    }
    productString := DropLast(productString);
  }

  /** The text ends with the closing parenthesis of the oldest entry, so never with a comma. */
  lemma HistoricStringEndsWithEntry(encounters: seq<Encounter>, show: real -> string)
    requires encounters != []
    ensures var s := Text.Join(Pieces(encounters, show), ",");
            |s| > 0 && s[|s| - 1] == ')'
  {
    var ps := Pieces(encounters, show);
    var n := |ps|;
    if n > 1 {
      Text.JoinSnoc(ps[..n - 1], ",", ps[n - 1]);
      assert ps[..n - 1] + [ps[n - 1]] == ps;
    }
  }

  /** The practitioner's patients are keyed by their own ids. */
  predicate DirectoryKeyedById(directory: map<string, Patient>)
  {
    forall id :: id in directory ==> directory[id].id == id
  }

  /**
   * The practitioner's patients carry no readings: they are built with an
   * empty list, and `getPatient` hands out copies, so the directory itself is
   * never given readings.
   */
  predicate NoReadings(directory: map<string, Patient>)
    reads directory.Values
  {
    forall id :: id in directory ==> directory[id].encounters == []
  }

  /**
   * A list's patients and insertion order after the add path of a toggle:
   * when `joins`, the id is appended to the order and mapped to its new
   * entry, and every other entry is kept; otherwise nothing changed.
   */
  predicate AddedOrKept(patients: map<string, Patient>, order: seq<string>,
                        oldPatients: map<string, Patient>, oldOrder: seq<string>, id: string, joins: bool)
  {
    if joins then id in patients && patients == oldPatients[id := patients[id]] && order == oldOrder + [id]
    else patients == oldPatients && order == oldOrder
  }

  /** Practitioner's `getPatient`: a fresh copy of the directory entry, or None. */
  method GetPatient(directory: map<string, Patient>, patientId: string) returns (p: Patient?)
    ensures p == null <==> patientId !in directory
    ensures p != null ==> fresh(p) && p.IsCopyOf(directory[patientId])
  {
    if patientId in directory {
      p := directory[patientId].Copy();
    } else {
      p := null;
    }
  }

  /** The add branch of the cholesterol toggle up to the add: a fresh copy holding the fetched reading, or none. */
  method CholesterolCopy(directory: map<string, Patient>, patientId: string, fetch: Fetch) returns (p: Patient?)
    requires DirectoryKeyedById(directory)
    ensures p == null <==> patientId !in directory
    ensures p != null ==> fresh(p) && p.id == patientId && p.encounters == fetch(patientId, Cholesterol, 1)
    ensures p != null ==> p.SameDetails(directory[patientId])
    ensures p != null && Respects(fetch) ==> Fits(p.encounters, Cholesterol, 1)
  {
    p := GetPatient(directory, patientId);
    if p != null {
      var cholesterolEncounters := fetch(patientId, Cholesterol, 1);
      if cholesterolEncounters != [] {
        p.UpdateEncounters(cholesterolEncounters);
      } else {
        p.UpdateEncounters([]);
      }
    }
  }

  /**
   * The add branch of the historic toggle up to the add: a fresh copy
   * holding up to five fetched systolic readings, or the directory's
   * readings when the fetch is empty; none for an unknown id.
   */
  method HistoricCopy(directory: map<string, Patient>, patientId: string, fetch: Fetch) returns (p: Patient?)
    requires DirectoryKeyedById(directory)
    ensures p == null <==> patientId !in directory
    ensures p != null ==>
              var history := fetch(patientId, Systolic, 5);
              fresh(p) && p.id == patientId &&
              p.encounters == if history != [] then history else directory[patientId].encounters
    ensures p != null ==> p.SameDetails(directory[patientId])
    ensures p != null && Respects(fetch) && old(NoReadings(directory)) ==> Fits(p.encounters, Systolic, 5)
  {
    p := GetPatient(directory, patientId);
    if p != null {
      var systolicEncounters := fetch(patientId, Systolic, 5);
      if systolicEncounters != [] {
        p.UpdateEncounters(systolicEncounters);
      }
    }
  }

  /**
   * The add branch of the blood-pressure toggle up to the adds: two fresh
   * copies of one patient; when a systolic reading was fetched they hold the
   * fetched systolic and diastolic readings, otherwise the directory's.
   */
  method BloodPressureCopies(directory: map<string, Patient>, patientId: string, fetch: Fetch)
    returns (systolicCopy: Patient?, diastolicCopy: Patient?)
    requires DirectoryKeyedById(directory)
    ensures systolicCopy == null <==> patientId !in directory
    ensures systolicCopy != null ==>
              diastolicCopy != null && fresh(systolicCopy) && fresh(diastolicCopy) && systolicCopy != diastolicCopy &&
              systolicCopy.id == patientId && diastolicCopy.id == patientId &&
              var systolic := fetch(patientId, Systolic, 1);
              systolicCopy.encounters == (if systolic != [] then systolic else directory[patientId].encounters) &&
              diastolicCopy.encounters ==
                (if systolic != [] then fetch(patientId, Diastolic, 1) else directory[patientId].encounters)
    ensures systolicCopy != null ==>
              systolicCopy.SameDetails(directory[patientId]) && diastolicCopy.SameDetails(directory[patientId])
    ensures systolicCopy != null && Respects(fetch) && old(NoReadings(directory)) ==>
              Fits(systolicCopy.encounters, Systolic, 1) && Fits(diastolicCopy.encounters, Diastolic, 1)
  {
    systolicCopy := GetPatient(directory, patientId);
    diastolicCopy := null;
    if systolicCopy != null {
      diastolicCopy := GetPatient(directory, patientId);
      var systolicEncounters := fetch(patientId, Systolic, 1);
      var diastolicEncounters := fetch(patientId, Diastolic, 1);
      if systolicEncounters != [] {
        systolicCopy.UpdateEncounters(systolicEncounters);
        diastolicCopy.UpdateEncounters(diastolicEncounters);
      }
    }
  }

  class ViewController {
    var freq: int
    var xValue: int
    var yValue: int
    const monitoringList: MonitoringListAverage
    const systolicMonitor: MonitoringList
    const systolicMonitorHistoric: MonitoringList
    const diastolicMonitor: MonitoringList

    /** All four lists are consistent and linked as below. */
    ghost predicate Valid()
      reads this, monitoringList, monitoringList.base, monitoringList.base.patients.Values
      reads systolicMonitor, systolicMonitorHistoric, diastolicMonitor
      reads systolicMonitor.patients.Values, systolicMonitorHistoric.patients.Values, diastolicMonitor.patients.Values
    {
      CholesterolValid() && BloodPressureValid() && CholesterolFit() && BloodPressureFit() && Apart()
    }

    /** The averaging list's base list is none of the blood-pressure lists. */
    predicate Apart()
      reads this, monitoringList
    {
      monitoringList.base != systolicMonitor && monitoringList.base != diastolicMonitor &&
      monitoringList.base != systolicMonitorHistoric
    }

    /** The averaging list watches cholesterol and keeps its count and average exact. */
    ghost predicate CholesterolValid()
      reads this, monitoringList, monitoringList.base, monitoringList.base.patients.Values
    {
      monitoringList.Valid() && monitoringList.base.encounterType == Cholesterol
    }

    /**
     * Three distinct, consistent blood-pressure lists; the systolic and
     * diastolic lists watch the same patients, and the historic list only
     * patients of the systolic list.
     */
    ghost predicate BloodPressureValid()
      reads this, systolicMonitor, systolicMonitorHistoric, diastolicMonitor
    {
      systolicMonitor.Valid() && diastolicMonitor.Valid() && systolicMonitorHistoric.Valid() &&
      systolicMonitor != diastolicMonitor && systolicMonitor != systolicMonitorHistoric &&
      diastolicMonitor != systolicMonitorHistoric &&
      systolicMonitor.encounterType == Systolic && systolicMonitor.numHistoric == 1 &&
      systolicMonitorHistoric.encounterType == Systolic && systolicMonitorHistoric.numHistoric == 5 &&
      diastolicMonitor.encounterType == Diastolic && diastolicMonitor.numHistoric == 1 &&
      systolicMonitor.patients.Keys == diastolicMonitor.patients.Keys &&
      systolicMonitorHistoric.patients.Keys <= systolicMonitor.patients.Keys
    }

    /** Every cholesterol member holds at most one reading, of cholesterol. */
    ghost predicate CholesterolFit()
      reads this, monitoringList, monitoringList.base, monitoringList.base.patients.Values
    {
      monitoringList.base.ReadingsFit()
    }

    /**
     * Every member of a blood-pressure list holds at most that list's depth
     * of readings (1, 5 and 1), all of that list's kind.
     */
    ghost predicate BloodPressureFit()
      reads this, systolicMonitor, systolicMonitorHistoric, diastolicMonitor
      reads systolicMonitor.patients.Values, systolicMonitorHistoric.patients.Values, diastolicMonitor.patients.Values
    {
      systolicMonitor.ReadingsFit() && systolicMonitorHistoric.ReadingsFit() && diastolicMonitor.ReadingsFit()
    }

    /** The cholesterol half of `Valid` survives any step that leaves the averaging list and its patients alone. */
    twostate lemma CholesterolKept()
      requires old(CholesterolValid() && CholesterolFit())
      requires unchanged(this, monitoringList, monitoringList.base) && unchanged(monitoringList.base.patients.Values)
      ensures CholesterolValid() && CholesterolFit()
    {
    }

    /** The blood-pressure half of `Valid` survives any step that leaves the three lists and their patients alone. */
    twostate lemma BloodPressureKept()
      requires old(BloodPressureValid() && BloodPressureFit())
      requires unchanged(this, systolicMonitor, systolicMonitorHistoric, diastolicMonitor)
      requires unchanged(systolicMonitor.patients.Values, systolicMonitorHistoric.patients.Values)
      requires unchanged(diastolicMonitor.patients.Values)
      ensures BloodPressureValid() && BloodPressureFit()
    {
    }

    /** Defaults: refresh every 20 seconds, X = 140, Y = 90, all lists empty. */
    constructor ()
      ensures Valid()
      ensures freq == 20 && xValue == 140 && yValue == 90
      ensures monitoringList.base.patients == map[] && systolicMonitor.patients == map[]
      ensures systolicMonitorHistoric.patients == map[] && diastolicMonitor.patients == map[]
      ensures monitoringList.base.order == [] && systolicMonitor.order == []
      ensures systolicMonitorHistoric.order == [] && diastolicMonitor.order == []
      ensures systolicMonitor.threshold == 140.0 && systolicMonitorHistoric.threshold == 140.0
      ensures diastolicMonitor.threshold == 90.0
      ensures fresh(monitoringList) && fresh(monitoringList.base)
      ensures fresh(systolicMonitor) && fresh(systolicMonitorHistoric) && fresh(diastolicMonitor)
    {
      freq := 20;
      xValue := 140;
      yValue := 90;
      monitoringList := new MonitoringListAverage(Cholesterol);
      systolicMonitor := new MonitoringList(Systolic, 140.0, 1);
      systolicMonitorHistoric := new MonitoringList(Systolic, 140.0, 5);
      diastolicMonitor := new MonitoringList(Diastolic, 90.0, 1);
    }

    method UpdateN(n: int)
      modifies this`freq
      ensures freq == n
    {
      freq := n;
    }

    method UpdateX(x: int)
      modifies this`xValue
      ensures xValue == x
    {
      xValue := x;
    }

    method UpdateY(y: int)
      modifies this`yValue
      ensures yValue == y
    {
      yValue := y;
    }

    /**
     * A click on a patient's cholesterol cell: removes a monitored patient,
     * otherwise fetches the latest cholesterol reading and adds the patient.
     */
    method MonitorCholesterol(patientId: string, directory: map<string, Patient>, fetch: Fetch)
      requires CholesterolValid() && DirectoryKeyedById(directory)
      modifies monitoringList, monitoringList.base
      ensures CholesterolValid()
      ensures patientId in old(monitoringList.base.patients) ==>
                monitoringList.base.patients == old(monitoringList.base.patients) - {patientId} &&
                monitoringList.base.order == Without(old(monitoringList.base.order), patientId)
      ensures patientId in old(monitoringList.base.patients) ==>
                if HasReading(old(monitoringList.base.Readings()), patientId) then
                  monitoringList.numPatients == old(monitoringList.numPatients) - 1 &&
                  monitoringList.average ==
                    RemoveStep(old(monitoringList.average), monitoringList.numPatients,
                               Latest(old(monitoringList.base.Readings()), patientId))
                else
                  monitoringList.numPatients == old(monitoringList.numPatients) &&
                  monitoringList.average == old(monitoringList.average)
      ensures patientId !in old(monitoringList.base.patients) ==>
                monitoringList.base.patients.Keys ==
                  old(monitoringList.base.patients.Keys) + (if patientId in directory then {patientId} else {})
      ensures patientId !in old(monitoringList.base.patients) ==>
                AddedOrKept(monitoringList.base.patients, monitoringList.base.order,
                            old(monitoringList.base.patients), old(monitoringList.base.order), patientId, patientId in directory)
      ensures patientId !in old(monitoringList.base.patients) ==>
                var reading := fetch(patientId, Cholesterol, 1);
                if patientId in directory && reading != [] then
                  monitoringList.numPatients == old(monitoringList.numPatients) + 1 &&
                  monitoringList.average == AddStep(old(monitoringList.average), monitoringList.numPatients, reading[0].value)
                else
                  monitoringList.numPatients == old(monitoringList.numPatients) &&
                  monitoringList.average == old(monitoringList.average)
      ensures patientId !in old(monitoringList.base.patients) && patientId in directory ==>
                monitoringList.base.patients[patientId].encounters == fetch(patientId, Cholesterol, 1) &&
                monitoringList.base.patients[patientId].SameDetails(directory[patientId])
      ensures old(CholesterolFit()) && Respects(fetch) ==> CholesterolFit()
      ensures old(Valid()) && Respects(fetch) ==> Valid()
    {
      if monitoringList.base.Contains(patientId) {
        StopCholesterol(patientId);
      } else {
        StartCholesterol(patientId, directory, fetch);
      }
      if old(Valid()) {
        BloodPressureKept();
      }
    }

    /** The remove half of the cholesterol toggle: the patient leaves, and count and average step back. */
    method StopCholesterol(patientId: string)
      requires CholesterolValid()
      modifies monitoringList, monitoringList.base
      ensures CholesterolValid()
      ensures monitoringList.base.patients == old(monitoringList.base.patients) - {patientId}
      ensures monitoringList.base.order == Without(old(monitoringList.base.order), patientId)
      ensures if HasReading(old(monitoringList.base.Readings()), patientId) then
                monitoringList.numPatients == old(monitoringList.numPatients) - 1 &&
                monitoringList.average ==
                  RemoveStep(old(monitoringList.average), monitoringList.numPatients,
                             Latest(old(monitoringList.base.Readings()), patientId))
              else
                monitoringList.numPatients == old(monitoringList.numPatients) &&
                monitoringList.average == old(monitoringList.average)
      ensures old(CholesterolFit()) ==> CholesterolFit()
    {
      monitoringList.Remove(patientId);
    }

    /** The add half of the cholesterol toggle: a copy of the patient with their latest cholesterol reading joins. */
    method StartCholesterol(patientId: string, directory: map<string, Patient>, fetch: Fetch)
      requires CholesterolValid() && DirectoryKeyedById(directory)
      requires patientId !in monitoringList.base.patients
      modifies monitoringList, monitoringList.base
      ensures CholesterolValid()
      ensures monitoringList.base.patients.Keys ==
                old(monitoringList.base.patients.Keys) + (if patientId in directory then {patientId} else {})
      ensures AddedOrKept(monitoringList.base.patients, monitoringList.base.order,
                          old(monitoringList.base.patients), old(monitoringList.base.order), patientId, patientId in directory)
      ensures var reading := fetch(patientId, Cholesterol, 1);
              if patientId in directory && reading != [] then
                monitoringList.numPatients == old(monitoringList.numPatients) + 1 &&
                monitoringList.average == AddStep(old(monitoringList.average), monitoringList.numPatients, reading[0].value)
              else
                monitoringList.numPatients == old(monitoringList.numPatients) &&
                monitoringList.average == old(monitoringList.average)
      ensures patientId in directory ==>
                monitoringList.base.patients[patientId].encounters == fetch(patientId, Cholesterol, 1) &&
                monitoringList.base.patients[patientId].SameDetails(directory[patientId])
      ensures old(CholesterolFit()) && Respects(fetch) ==> CholesterolFit()
    {
      var monitoredPatient := CholesterolCopy(directory, patientId, fetch);
      if monitoredPatient != null {
        monitoringList.Add(monitoredPatient);
      }
    }

    /**
     * A click on a patient's blood-pressure cell: removes a monitored patient
     * from the systolic, diastolic and historic lists, otherwise adds a copy
     * to both the systolic and the diastolic list. The readings are stored
     * only when a systolic reading exists.
     */
    method MonitorBloodPressure(patientId: string, directory: map<string, Patient>, fetch: Fetch)
      requires BloodPressureValid() && DirectoryKeyedById(directory)
      modifies systolicMonitor, diastolicMonitor, systolicMonitorHistoric
      ensures BloodPressureValid()
      ensures patientId in old(systolicMonitor.patients) ==>
                systolicMonitor.patients == old(systolicMonitor.patients) - {patientId} &&
                diastolicMonitor.patients == old(diastolicMonitor.patients) - {patientId} &&
                systolicMonitorHistoric.patients == old(systolicMonitorHistoric.patients) - {patientId}
      ensures patientId in old(systolicMonitor.patients) ==>
                systolicMonitor.order == Without(old(systolicMonitor.order), patientId) &&
                diastolicMonitor.order == Without(old(diastolicMonitor.order), patientId) &&
                systolicMonitorHistoric.order == Without(old(systolicMonitorHistoric.order), patientId)
      ensures patientId !in old(systolicMonitor.patients) ==>
                systolicMonitor.patients.Keys ==
                  old(systolicMonitor.patients.Keys) + (if patientId in directory then {patientId} else {}) &&
                systolicMonitorHistoric.patients == old(systolicMonitorHistoric.patients) &&
                systolicMonitorHistoric.order == old(systolicMonitorHistoric.order)
      ensures patientId !in old(systolicMonitor.patients) ==>
                AddedOrKept(systolicMonitor.patients, systolicMonitor.order,
                            old(systolicMonitor.patients), old(systolicMonitor.order), patientId, patientId in directory) &&
                AddedOrKept(diastolicMonitor.patients, diastolicMonitor.order,
                            old(diastolicMonitor.patients), old(diastolicMonitor.order), patientId, patientId in directory)
      ensures patientId !in old(systolicMonitor.patients) && patientId in directory ==>
                var systolic := fetch(patientId, Systolic, 1);
                systolicMonitor.patients[patientId].encounters ==
                  (if systolic != [] then systolic else directory[patientId].encounters) &&
                diastolicMonitor.patients[patientId].encounters ==
                  (if systolic != [] then fetch(patientId, Diastolic, 1) else directory[patientId].encounters) &&
                systolicMonitor.patients[patientId].SameDetails(directory[patientId]) &&
                diastolicMonitor.patients[patientId].SameDetails(directory[patientId])
      ensures old(BloodPressureFit() && NoReadings(directory)) && Respects(fetch) ==> BloodPressureFit()
      ensures old(Valid() && NoReadings(directory)) && Respects(fetch) ==> Valid()
    {
      if systolicMonitor.Contains(patientId) {
        StopBloodPressure(patientId);
      } else {
        StartBloodPressure(patientId, directory, fetch);
      }
      if old(CholesterolValid() && CholesterolFit()) {
        CholesterolKept();
      }
    }

    /**
     * The remove half of the blood-pressure toggle. The lists are disjoint
     * objects, so the historic list is emptied of the patient first; the
     * order of the three removals does not change the outcome.
     */
    method StopBloodPressure(patientId: string)
      requires BloodPressureValid()
      modifies systolicMonitor, diastolicMonitor, systolicMonitorHistoric
      ensures BloodPressureValid()
      ensures systolicMonitor.patients == old(systolicMonitor.patients) - {patientId}
      ensures diastolicMonitor.patients == old(diastolicMonitor.patients) - {patientId}
      ensures systolicMonitorHistoric.patients == old(systolicMonitorHistoric.patients) - {patientId}
      ensures systolicMonitor.order == Without(old(systolicMonitor.order), patientId)
      ensures diastolicMonitor.order == Without(old(diastolicMonitor.order), patientId)
      ensures systolicMonitorHistoric.order == Without(old(systolicMonitorHistoric.order), patientId)
      ensures old(BloodPressureFit()) ==> BloodPressureFit()
    {
      StopHistoric(patientId);
      StopCurrent(patientId);
    }

    /** Removes the patient from the historic list when it holds them. */
    method StopHistoric(patientId: string)
      requires BloodPressureValid()
      modifies systolicMonitorHistoric
      ensures BloodPressureValid() && patientId !in systolicMonitorHistoric.patients
      ensures systolicMonitorHistoric.patients == old(systolicMonitorHistoric.patients) - {patientId}
      ensures systolicMonitorHistoric.order == Without(old(systolicMonitorHistoric.order), patientId)
      ensures old(BloodPressureFit()) ==> BloodPressureFit()
    {
      if systolicMonitorHistoric.Contains(patientId) {
        systolicMonitorHistoric.Remove(patientId);
      }
    }

    /** Removes a patient the historic list does not hold from the systolic and diastolic lists. */
    method StopCurrent(patientId: string)
      requires BloodPressureValid() && patientId !in systolicMonitorHistoric.patients
      modifies systolicMonitor, diastolicMonitor
      ensures BloodPressureValid()
      ensures systolicMonitor.patients == old(systolicMonitor.patients) - {patientId}
      ensures diastolicMonitor.patients == old(diastolicMonitor.patients) - {patientId}
      ensures systolicMonitor.order == Without(old(systolicMonitor.order), patientId)
      ensures diastolicMonitor.order == Without(old(diastolicMonitor.order), patientId)
      ensures old(BloodPressureFit()) ==> systolicMonitor.ReadingsFit()
      ensures old(BloodPressureFit()) ==> diastolicMonitor.ReadingsFit()
      ensures old(BloodPressureFit()) ==> systolicMonitorHistoric.ReadingsFit()
    {
      RemoveSystolic(patientId);
      RemoveDiastolic(patientId);
    }

    /** The first of the two removals: the patient leaves the systolic list. */
    method RemoveSystolic(patientId: string)
      requires BloodPressureValid()
      modifies systolicMonitor
      ensures systolicMonitor.Valid() && systolicMonitor.patients == old(systolicMonitor.patients) - {patientId}
      ensures systolicMonitor.order == Without(old(systolicMonitor.order), patientId)
      ensures old(BloodPressureFit()) ==> BloodPressureFit()
    {
      systolicMonitor.Remove(patientId);
    }

    /** The second of the two removals: the patient leaves the diastolic list. */
    method RemoveDiastolic(patientId: string)
      requires diastolicMonitor.Valid()
      requires diastolicMonitor != systolicMonitor && diastolicMonitor != systolicMonitorHistoric
      modifies diastolicMonitor
      ensures diastolicMonitor.Valid() && diastolicMonitor.patients == old(diastolicMonitor.patients) - {patientId}
      ensures diastolicMonitor.order == Without(old(diastolicMonitor.order), patientId)
      ensures old(BloodPressureFit()) ==> BloodPressureFit()
    {
      diastolicMonitor.Remove(patientId);
    }

    /**
     * The add half of the blood-pressure toggle: two copies of a known
     * patient join the systolic and the diastolic list under the same id.
     */
    method StartBloodPressure(patientId: string, directory: map<string, Patient>, fetch: Fetch)
      requires BloodPressureValid() && DirectoryKeyedById(directory)
      requires patientId !in systolicMonitor.patients
      modifies systolicMonitor, diastolicMonitor
      ensures BloodPressureValid()
      ensures systolicMonitor.patients.Keys ==
                old(systolicMonitor.patients.Keys) + (if patientId in directory then {patientId} else {})
      ensures AddedOrKept(systolicMonitor.patients, systolicMonitor.order,
                          old(systolicMonitor.patients), old(systolicMonitor.order), patientId, patientId in directory)
      ensures AddedOrKept(diastolicMonitor.patients, diastolicMonitor.order,
                          old(diastolicMonitor.patients), old(diastolicMonitor.order), patientId, patientId in directory)
      ensures patientId in directory ==>
                var systolic := fetch(patientId, Systolic, 1);
                systolicMonitor.patients[patientId].encounters ==
                  (if systolic != [] then systolic else directory[patientId].encounters) &&
                diastolicMonitor.patients[patientId].encounters ==
                  (if systolic != [] then fetch(patientId, Diastolic, 1) else directory[patientId].encounters) &&
                systolicMonitor.patients[patientId].SameDetails(directory[patientId]) &&
                diastolicMonitor.patients[patientId].SameDetails(directory[patientId])
      ensures old(BloodPressureFit() && NoReadings(directory)) && Respects(fetch) ==> BloodPressureFit()
    {
      var monitoredPatientSystolic, monitoredPatientDiastolic := BloodPressureCopies(directory, patientId, fetch);
      if old(BloodPressureFit()) {
        assert BloodPressureFit();
      }
      if monitoredPatientSystolic != null {
        AddSystolic(monitoredPatientSystolic);
        AddDiastolic(monitoredPatientDiastolic);
      }
    }

    /** The first of the two adds: the copy joins the systolic list (the diastolic list follows at once). */
    method AddSystolic(p: Patient)
      requires BloodPressureValid() && p.id !in systolicMonitor.patients
      modifies systolicMonitor
      ensures systolicMonitor.Valid() && systolicMonitor.patients == old(systolicMonitor.patients)[p.id := p]
      ensures systolicMonitor.order == old(systolicMonitor.order) + [p.id]
      ensures old(BloodPressureFit() && Fits(p.encounters, Systolic, 1)) ==> BloodPressureFit()
    {
      var _ := systolicMonitor.Add(p);
    }

    /** The second of the two adds: the copy joins the diastolic list. */
    method AddDiastolic(p: Patient)
      requires diastolicMonitor.Valid() && p.id !in diastolicMonitor.patients
      requires diastolicMonitor != systolicMonitor && diastolicMonitor != systolicMonitorHistoric
      requires diastolicMonitor.encounterType == Diastolic && diastolicMonitor.numHistoric == 1
      modifies diastolicMonitor
      ensures diastolicMonitor.Valid() && diastolicMonitor.patients == old(diastolicMonitor.patients)[p.id := p]
      ensures diastolicMonitor.order == old(diastolicMonitor.order) + [p.id]
      ensures old(BloodPressureFit() && Fits(p.encounters, Diastolic, 1)) ==> BloodPressureFit()
    {
      var _ := diastolicMonitor.Add(p);
    }

    /**
     * A click on a row's historic cell: removes a patient from the historic
     * list, otherwise adds a copy with up to five systolic readings, but only
     * when their latest systolic reading exceeds X.
     */
    method MonitorHistoricBloodPressure(patientId: string, directory: map<string, Patient>, fetch: Fetch)
      requires BloodPressureValid() && DirectoryKeyedById(directory)
      modifies systolicMonitorHistoric
      ensures BloodPressureValid()
      ensures patientId in old(systolicMonitorHistoric.patients) ==>
                systolicMonitorHistoric.patients == old(systolicMonitorHistoric.patients) - {patientId} &&
                systolicMonitorHistoric.order == Without(old(systolicMonitorHistoric.order), patientId)
      ensures patientId !in old(systolicMonitorHistoric.patients) ==>
                systolicMonitorHistoric.patients.Keys ==
                  old(systolicMonitorHistoric.patients.Keys) +
                    (if HistoricEligible(old(systolicMonitor.GetNthEncounter(patientId, 0)), xValue) && patientId in directory
                     then {patientId} else {})
      ensures patientId !in old(systolicMonitorHistoric.patients) ==>
                AddedOrKept(systolicMonitorHistoric.patients, systolicMonitorHistoric.order,
                            old(systolicMonitorHistoric.patients), old(systolicMonitorHistoric.order), patientId,
                            HistoricEligible(old(systolicMonitor.GetNthEncounter(patientId, 0)), xValue) && patientId in directory)
      ensures patientId !in old(systolicMonitorHistoric.patients) && patientId in systolicMonitorHistoric.patients ==>
                var history := fetch(patientId, Systolic, 5);
                systolicMonitorHistoric.patients[patientId].encounters ==
                  (if history != [] then history else directory[patientId].encounters) &&
                systolicMonitorHistoric.patients[patientId].SameDetails(directory[patientId])
      ensures old(BloodPressureFit() && NoReadings(directory)) && Respects(fetch) ==> BloodPressureFit()
      ensures old(Valid() && NoReadings(directory)) && Respects(fetch) ==> Valid()
    {
      if systolicMonitorHistoric.Contains(patientId) {
        StopHistoric(patientId);
      } else {
        StartHistoric(patientId, directory, fetch);
      }
      if old(CholesterolValid() && CholesterolFit()) {
        CholesterolKept();
      }
    }

    /** The add half of the historic toggle, for a patient the historic list does not hold. */
    method StartHistoric(patientId: string, directory: map<string, Patient>, fetch: Fetch)
      requires BloodPressureValid() && DirectoryKeyedById(directory)
      requires patientId !in systolicMonitorHistoric.patients
      modifies systolicMonitorHistoric
      ensures BloodPressureValid()
      ensures systolicMonitorHistoric.patients.Keys ==
                old(systolicMonitorHistoric.patients.Keys) +
                  (if HistoricEligible(old(systolicMonitor.GetNthEncounter(patientId, 0)), xValue) && patientId in directory
                   then {patientId} else {})
      ensures AddedOrKept(systolicMonitorHistoric.patients, systolicMonitorHistoric.order,
                          old(systolicMonitorHistoric.patients), old(systolicMonitorHistoric.order), patientId,
                          HistoricEligible(old(systolicMonitor.GetNthEncounter(patientId, 0)), xValue) && patientId in directory)
      ensures patientId in systolicMonitorHistoric.patients ==>
                var history := fetch(patientId, Systolic, 5);
                systolicMonitorHistoric.patients[patientId].encounters ==
                  (if history != [] then history else directory[patientId].encounters) &&
                systolicMonitorHistoric.patients[patientId].SameDetails(directory[patientId])
      ensures old(BloodPressureFit() && NoReadings(directory)) && Respects(fetch) ==> BloodPressureFit()
    {
      var latestEncounter := systolicMonitor.GetNthEncounter(patientId, 0);
      if latestEncounter.Some? && latestEncounter.value.GetValue() > xValue as real {
        var monitoredPatient := HistoricCopy(directory, patientId, fetch);
        if old(BloodPressureFit()) {
          assert BloodPressureFit();
        }
        if monitoredPatient != null {
          AddHistoric(monitoredPatient);
        }
      }
    }

    /** Adds a patient of the systolic list to the historic list. */
    method AddHistoric(p: Patient)
      requires BloodPressureValid()
      requires p.id in systolicMonitor.patients && p.id !in systolicMonitorHistoric.patients
      modifies systolicMonitorHistoric
      ensures BloodPressureValid()
      ensures systolicMonitorHistoric.patients == old(systolicMonitorHistoric.patients)[p.id := p]
      ensures systolicMonitorHistoric.order == old(systolicMonitorHistoric.order) + [p.id]
      ensures old(BloodPressureFit() && Fits(p.encounters, Systolic, 5)) ==> BloodPressureFit()
    {
      var _ := systolicMonitorHistoric.Add(p);
    }
  }
}
