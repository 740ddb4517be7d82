/**
 * A monitoring list: the patients being watched for one measurement kind,
 * keyed by patient id, with a settable threshold and a selective refresh
 * from the remote data service.
 *
 * The Python dict keeps its keys in insertion order, and every loop over the
 * list (refresh, recomputing the average) walks that order, so the model
 * keeps the order as a sequence of ids beside the id -> Patient map.
 */
module MonitoringLists {

  import opened Optional
  import opened Encounters
  import opened Patients

  /**
   * The remote data client's `fetchEncounter(id, kind, n)`: up to `n` readings
   * of `kind` for patient `id`, newest first, empty when there are none.
   * The server's answers change over time, so each refresh is given the
   * answers current at that moment.
   */
  type Fetch = (string, Kind, nat) -> seq<Encounter>

  /** The readings of the monitored patients, by patient id. */
  type Readings = map<string, seq<Encounter>>

  /** At most `depth` readings, all of kind `kind`: what a list watching `kind` at depth `depth` may hold per patient. */
  predicate Fits(es: seq<Encounter>, kind: Kind, depth: nat)
  {
    |es| <= depth && forall i :: 0 <= i < |es| ==> es[i].kind == kind
  }

  /** Every patient's readings fit the kind and the depth. */
  predicate AllFit(r: Readings, kind: Kind, depth: nat)
  {
    forall id :: id in r ==> Fits(r[id], kind, depth)
  }

  /** The data service keeps its promise: `fetch(id, kind, n)` holds at most `n` readings, all of kind `kind`. */
  ghost predicate Respects(fetch: Fetch)
  {
    forall id, kind, n :: Fits(fetch(id, kind, n), kind, n)
  }

  predicate NoDuplicates(ids: seq<string>)
  {
    forall i, j :: 0 <= i < j < |ids| ==> ids[i] != ids[j]
  }

  /** The id sequence after `del d[id]`: the others keep their relative order. */
  function Without(ids: seq<string>, id: string): (r: seq<string>)
    ensures forall k :: k in r <==> k in ids && k != id
    ensures NoDuplicates(ids) ==> NoDuplicates(r)
    ensures NoDuplicates(ids) && id in ids ==> |r| == |ids| - 1
    ensures id !in ids ==> r == ids
  {
    if ids == [] then []
    else
      assert NoDuplicates(ids) ==> NoDuplicates(ids[1..]) && ids[0] !in ids[1..];
      if ids[0] == id then Without(ids[1..], id)
      else [ids[0]] + Without(ids[1..], id)
  }

  /** The new reading list of one patient: replaced only when it had a reading, the fetch is non-empty and the newest timestamp differs. */
  function RefreshOne(current: seq<Encounter>, fetched: seq<Encounter>): seq<Encounter>
  {
    if current != [] && fetched != [] && fetched[0].GetDateTime() != current[0].GetDateTime()
    then fetched else current
  }

  /** The readings after one refresh pass over every monitored patient. */
  function Refreshed(r: Readings, kind: Kind, depth: nat, fetch: Fetch): (r': Readings)
    ensures r'.Keys == r.Keys
    ensures forall id :: id in r && r'[id] != r[id] ==>
              r[id] != [] && fetch(id, kind, depth) != [] && r'[id] == fetch(id, kind, depth) &&
              fetch(id, kind, depth)[0].dateTime != r[id][0].dateTime
    ensures forall id :: (id in r && r[id] != [] && fetch(id, kind, depth) != [] &&
                          fetch(id, kind, depth)[0].dateTime != r[id][0].dateTime) ==>
              r'[id] == fetch(id, kind, depth)
    ensures forall id :: id in r ==> (r'[id] == [] <==> r[id] == [])
  {
    map id | id in r :: RefreshOne(r[id], fetch(id, kind, depth))
  }

  /** A refresh from a service that keeps its promise keeps every list within its kind and depth. */
  lemma RefreshedFits(r: Readings, kind: Kind, depth: nat, fetch: Fetch)
    requires AllFit(r, kind, depth) && Respects(fetch)
    ensures AllFit(Refreshed(r, kind, depth, fetch), kind, depth)
  {
    var r' := Refreshed(r, kind, depth, fetch);
    forall id | id in r'
      ensures Fits(r'[id], kind, depth)
    {
      assert Fits(fetch(id, kind, depth), kind, depth);
    }
  }

  /** |ids| distinct ids make a set of |ids| elements. */
  lemma {:induction false} DistinctCard(ids: seq<string>)
    requires NoDuplicates(ids)
    ensures |set k | k in ids| == |ids|
  {
    if ids != [] {
      DistinctCard(ids[1..]);
      var rest := set k | k in ids[1..];
      assert (set k | k in ids) == {ids[0]} + rest;
      assert ids[0] !in rest;
    }
  }

  class MonitoringList {
    /** Keys of `patients` in insertion order. */
    var order: seq<string>
    var patients: map<string, Patient>
    const encounterType: Kind
    var threshold: real
    /** How many readings a refresh asks the server for. */
    const numHistoric: nat

    /** Each id occurs once, `order` lists exactly the keys, and every key is its patient's own id. */
    ghost predicate Valid()
      reads this
    {
      NoDuplicates(order) &&
      (forall id :: id in patients <==> id in order) &&
      (forall id :: id in patients ==> patients[id].id == id)
    }

    /** Every monitored patient holds at most `numHistoric` readings, all of this list's kind. */
    ghost predicate ReadingsFit()
      reads this`patients, patients.Values`encounters
    {
      AllFit(Readings(), encounterType, numHistoric)
    }

    /** The readings currently held for each monitored patient. */
    ghost function Readings(): Readings
      reads this`patients, patients.Values`encounters
    {
      map id | id in patients :: patients[id].encounters
    }

    /** The threshold defaults to -1 in the source; `num` defaults to 1. */
    constructor (encounterType: Kind, threshold: real, num: nat)
      ensures Valid()
      ensures this.encounterType == encounterType && this.threshold == threshold
      ensures numHistoric == num
      ensures patients == map[] && order == []
    {
      this.encounterType := encounterType;
      this.threshold := threshold;
      numHistoric := num;
      patients := map[];
      order := [];
    }

    /** Stores `p` by reference and reports true iff its id was not monitored yet; otherwise nothing changes. */
    method Add(p: Patient) returns (added: bool)
      requires Valid()
      modifies this`patients, this`order
      ensures Valid()
      ensures added <==> p.id !in old(patients)
      ensures patients == if added then old(patients)[p.id := p] else old(patients)
      ensures order == if added then old(order) + [p.id] else old(order)
      ensures Readings() == if added then old(Readings())[p.id := p.encounters] else old(Readings())
      ensures threshold == old(threshold)
      ensures old(ReadingsFit()) && Fits(p.encounters, encounterType, numHistoric) ==> ReadingsFit()
    {
      var patientId := p.GetId();
      if patientId !in patients {
        ghost var r := Readings();
        patients := patients[patientId := p];
        order := order + [patientId];
        assert Readings() == r[patientId := p.encounters];
        return true;
      }
      return false;
    }

    /** Unmonitors `patientId`; a silent no-op when it is not monitored. */
    method Remove(patientId: string)
      requires Valid()
      modifies this`patients, this`order
      ensures Valid()
      ensures patients == old(patients) - {patientId}
      ensures order == Without(old(order), patientId)
      ensures Readings() == old(Readings()) - {patientId}
      ensures threshold == old(threshold)
      ensures old(ReadingsFit()) ==> ReadingsFit()
    {
      if patientId in patients {
        patients := patients - {patientId};
        order := Without(order, patientId);
      }
    }

    function Contains(patientId: string): (r: bool)
      reads this
      ensures r <==> patientId in patients
    {
      patientId in patients
    }

    /** `copy.deepcopy` of the dict: fresh, unshared patients with the same contents under the same ids. */
    method ReturnPatients() returns (m: map<string, Patient>)
      requires Valid()
      ensures m.Keys == patients.Keys
      ensures forall id :: id in m ==> fresh(m[id]) && m[id].IsCopyOf(patients[id])
    {
      m := map[];
      var i := 0;
      while i < |order|
        invariant 0 <= i <= |order|
        invariant forall id :: id in m <==> id in order[..i]
        invariant forall id :: id in m ==> fresh(m[id]) && m[id].IsCopyOf(patients[id])
      {
        var c := patients[order[i]].Copy();
        m := m[order[i] := c];
        i := i + 1;
      }
      assert order[..i] == order;
    }

    /**
     * Re-fetches every monitored patient that already has a reading, and
     * replaces its list only when the newest timestamp changed. No patient
     * is added or removed.
     */
    method Update(fetch: Fetch)
      requires Valid()
      modifies patients.Values
      ensures Valid()
      ensures Readings() == Refreshed(old(Readings()), encounterType, numHistoric, fetch)
      ensures old(ReadingsFit()) && Respects(fetch) ==> ReadingsFit()
    {
      RefreshEach(fetch);
      assert Readings() == Refreshed(old(Readings()), encounterType, numHistoric, fetch);
      if old(ReadingsFit()) && Respects(fetch) {
        RefreshedFits(old(Readings()), encounterType, numHistoric, fetch);
      }
    }

    /** The loop of `update`, over a snapshot of the ids in insertion order. */
    method RefreshEach(fetch: Fetch)
      requires Valid()
      modifies patients.Values
      ensures Valid() && patients == old(patients)
      ensures forall id :: id in patients ==>
                patients[id].encounters == RefreshOne(old(patients[id].encounters), fetch(id, encounterType, numHistoric))
    {
      var patientIds := order;
      var i := 0;
      while i < |patientIds|
        invariant 0 <= i <= |patientIds|
        invariant patients == old(patients) && order == old(order) && Valid()
        invariant forall id :: id in patients ==>
                    patients[id].encounters ==
                      if id in patientIds[..i] then RefreshOne(old(patients[id].encounters), fetch(id, encounterType, numHistoric))
                      else old(patients[id].encounters)
      {
        var patientId := patientIds[i];
        assert patientId !in patientIds[..i];
        if patientId in patients {
          RefreshPatient(patientId, fetch);
        }
        assert patientIds[..i + 1] == patientIds[..i] + [patientId];
        i := i + 1;
      }
      assert patientIds[..i] == patientIds;
    }

    /** The loop body of `update` for one monitored patient: only a patient with a reading asks for new ones. */
    method RefreshPatient(patientId: string, fetch: Fetch)
      requires patientId in patients
      modifies patients[patientId]
      ensures patients[patientId].encounters ==
                RefreshOne(old(patients[patientId].encounters), fetch(patientId, encounterType, numHistoric))
    {
      var encounters := patients[patientId].GetEncounters();
      if encounters.Some? {
        var latest := encounters.value[0];
        var newEncounters := fetch(patientId, encounterType, numHistoric);
        if newEncounters != [] && newEncounters[0].GetDateTime() != latest.GetDateTime() {
          patients[patientId].UpdateEncounters(newEncounters);
        }
      }
    }

    /** The ids of all monitored patients, with or without readings, each once. */
    function GetPatientIds(): (r: seq<string>)
      requires Valid()
      reads this
      ensures NoDuplicates(r)
      ensures forall id :: id in r <==> id in patients
    {
      order
    }

    /** The n-th newest reading (0 = latest) of a monitored patient, or None when not monitored or out of range. */
    function GetNthEncounter(patientId: string, n: nat): (r: Option<Encounter>)
      reads this, patients.Values
      ensures r.Some? <==> patientId in patients && n < |patients[patientId].encounters|
      ensures r.Some? ==> r.value == patients[patientId].encounters[n]
    {
      if Contains(patientId) then
        match patients[patientId].GetEncounters()
        case Some(encounters) => if |encounters| > n then Some(encounters[n]) else None
        case None => None
      else None
    }

    function GetThreshold(): real
      reads this
    {
      threshold
    }

    /** Sets the threshold and nothing else. */
    method SetThreshold(newThreshold: real)
      modifies this`threshold
      ensures GetThreshold() == newThreshold
      ensures Readings() == old(Readings())
    {
      threshold := newThreshold;
    }

    /** The number of monitored patients, those without a reading included. */
    function GetNumPatients(): (r: nat)
      requires Valid()
      reads this
      ensures r == |order|
    {
      assert patients.Keys == set k | k in order;
      DistinctCard(order);
      |patients|
    }
  }
}
