/**
 * The averaging monitoring list: a monitoring list (fixed history depth 1)
 * that also keeps the number of members that have a reading and the mean of
 * their latest readings, updates both step by step on add and remove,
 * recomputes them from scratch after a refresh, and republishes the mean as
 * the list's threshold.
 *
 * The source extends MonitoringList by inheritance; here the averaging list
 * holds its base list and delegates to it explicitly.
 */
module MonitoringListAverages {

  import opened Optional
  import opened Encounters
  import opened Patients
  import opened MonitoringLists

  /** Patient `id` is monitored and has at least one reading. */
  predicate HasReading(r: Readings, id: string)
  {
    id in r && r[id] != []
  }

  /** The value of the latest reading of `id`. */
  function Latest(r: Readings, id: string): real
    requires HasReading(r, id)
  {
    r[id][0].GetValue()
  }

  /** How many of `ids` have a reading. */
  function CountWithReading(ids: seq<string>, r: Readings): (n: nat)
    ensures n <= |ids|
  {
    if ids == [] then 0
    else (if HasReading(r, ids[0]) then 1 else 0) + CountWithReading(ids[1..], r)
  }

  /** The sum of the latest readings of those of `ids` that have one. */
  function SumLatest(ids: seq<string>, r: Readings): real
  {
    if ids == [] then 0.0
    else (if HasReading(r, ids[0]) then Latest(r, ids[0]) else 0.0) + SumLatest(ids[1..], r)
  }

  /** The mean of `n` values summing to `s`, or the sentinel -1 when there are none. */
  function Ratio(s: real, n: nat): real
  {
    if n == 0 then -1.0 else s / n as real
  }

  /** The true mean of the latest readings over the members that have one; -1 when none has. */
  function Mean(ids: seq<string>, r: Readings): real
  {
    Ratio(SumLatest(ids, r), CountWithReading(ids, r))
  }

  /** The source's running-mean formula on add: `(average * (n - 1) + v) / n`. */
  function AddFormula(average: real, n: int, v: real): real
    requires n != 0
  {
    (average * (n - 1) as real + v) / n as real
  }

  /** The source's running-mean formula on remove: `(average * (n + 1) - v) / n`. */
  function RemoveFormula(average: real, n: int, v: real): real
    requires n != 0
  {
    (average * (n + 1) as real - v) / n as real
  }

  /** The source's incremental update on add, `n` being the count after the add. */
  function AddStep(average: real, n: nat, v: real): real
    requires n >= 1
  {
    if n == 1 then v else AddFormula(average, n, v)
  }

  /** The source's incremental update on remove, `n` being the count after the remove. */
  function RemoveStep(average: real, n: nat, v: real): real
  {
    if n == 0 then -1.0 else RemoveFormula(average, n, v)
  }

  lemma {:induction false} CountSumAppend(ids: seq<string>, id: string, r: Readings)
    ensures CountWithReading(ids + [id], r) == CountWithReading(ids, r) + (if HasReading(r, id) then 1 else 0)
    ensures SumLatest(ids + [id], r) == SumLatest(ids, r) + (if HasReading(r, id) then Latest(r, id) else 0.0)
  {
    if ids == [] {
      assert [id][1..] == [];
    } else {
      CountSumAppend(ids[1..], id, r);
      assert (ids + [id])[1..] == ids[1..] + [id];
    }
  }

  /** Count and sum over `ids` depend only on which of `ids` have a reading and on those latest values. */
  lemma {:induction false} CountSumFrame(ids: seq<string>, r: Readings, r': Readings)
    requires forall k :: k in ids ==> (HasReading(r, k) <==> HasReading(r', k))
    requires forall k :: k in ids && HasReading(r, k) ==> Latest(r, k) == Latest(r', k)
    ensures CountWithReading(ids, r) == CountWithReading(ids, r')
    ensures SumLatest(ids, r) == SumLatest(ids, r')
  {
    if ids != [] {
      CountSumFrame(ids[1..], r, r');
    }
  }

  lemma {:induction false} NoneCountedSumsToZero(ids: seq<string>, r: Readings)
    requires CountWithReading(ids, r) == 0
    ensures SumLatest(ids, r) == 0.0
  {
    if ids != [] {
      NoneCountedSumsToZero(ids[1..], r);
    }
  }

  /** Removing one id from a duplicate-free sequence drops exactly its share of the count and the sum. */
  lemma {:induction false} CountSumWithout(ids: seq<string>, id: string, r: Readings)
    requires NoDuplicates(ids) && id in ids
    ensures CountWithReading(ids, r) ==
            CountWithReading(Without(ids, id), r) + (if HasReading(r, id) then 1 else 0)
    ensures SumLatest(ids, r) ==
            SumLatest(Without(ids, id), r) + (if HasReading(r, id) then Latest(r, id) else 0.0)
  {
    assert ids[0] !in ids[1..];
    if ids[0] == id {
      assert Without(ids[1..], id) == ids[1..];
    } else {
      CountSumWithout(ids[1..], id, r);
      assert Without(ids, id) == [ids[0]] + Without(ids[1..], id);
      assert Without(ids, id)[1..] == Without(ids[1..], id);
    }
  }

  /**
   * The increment formula of add keeps the average equal to the true mean:
   * appending a new id whose list `encs` is non-empty moves the mean exactly
   * as AddStep says; a new id without a reading moves nothing.
   */
  lemma AddKeepsMean(ids: seq<string>, r: Readings, id: string, encs: seq<Encounter>)
    requires id !in ids
    ensures Mean(ids + [id], r[id := encs]) ==
            if encs != [] then AddStep(Mean(ids, r), CountWithReading(ids, r) + 1, encs[0].value)
            else Mean(ids, r)
  {
    AddCountSum(ids, r, id, encs);
    var n, s := CountWithReading(ids, r), SumLatest(ids, r);
    var r' := r[id := encs];
    if n == 0 {
      NoneCountedSumsToZero(ids, r);
    }
    if encs != [] {
      RatioAdd(n, s, CountWithReading(ids + [id], r'), SumLatest(ids + [id], r'), encs[0].value, true);
    } else {
      RatioAdd(n, s, CountWithReading(ids + [id], r'), SumLatest(ids + [id], r'), 0.0, false);
    }
  }

  /** AddStep on means written as ratios: to `c` values summing to `s`, one value `v` is added when `has`. */
  lemma RatioAdd(c: nat, s: real, cAll: nat, sAll: real, v: real, has: bool)
    requires c == 0 ==> s == 0.0
    requires cAll == c + (if has then 1 else 0) && sAll == s + (if has then v else 0.0)
    ensures Ratio(sAll, cAll) == if has then AddStep(Ratio(s, c), c + 1, v) else Ratio(s, c)
  {
    if has {
      AddStepIsMean(s, c, v);
    }
  }

  /** Appending a new id with list `encs` adds its share to the count and the sum. */
  lemma AddCountSum(ids: seq<string>, r: Readings, id: string, encs: seq<Encounter>)
    requires id !in ids
    ensures CountWithReading(ids + [id], r[id := encs]) ==
            CountWithReading(ids, r) + (if encs != [] then 1 else 0)
    ensures SumLatest(ids + [id], r[id := encs]) ==
            SumLatest(ids, r) + (if encs != [] then encs[0].value else 0.0)
  {
    var r' := r[id := encs];
    CountSumFrame(ids, r, r');
    CountSumAppend(ids, id, r');
  }

  /** Over the reals, AddStep applied to the mean of `n` values summing to `s` is the mean of the `n + 1` values. */
  lemma AddStepIsMean(s: real, n: nat, v: real)
    requires n == 0 ==> s == 0.0
    ensures AddStep(Ratio(s, n), n + 1, v) == Ratio(s + v, n + 1)
  {
    if n > 0 {
      var a := s / n as real;
      assert a * n as real == s;
    }
  }

  /** Over the reals, RemoveStep applied to the mean of `n + 1` values summing to `s + v` is the mean of the `n` values summing to `s`. */
  lemma RemoveStepIsMean(s: real, n: nat, v: real)
    requires n == 0 ==> s == 0.0
    ensures RemoveStep(Ratio(s + v, n + 1), n, v) == Ratio(s, n)
  {
    if n > 0 {
      var a := (s + v) / (n + 1) as real;
      assert a * (n + 1) as real == s + v;
    }
  }

  /**
   * The decrement formula of remove keeps the average equal to the true mean:
   * dropping a member with a reading moves the mean exactly as RemoveStep
   * says (-1 once nobody is left); dropping one without a reading, or an id
   * that is not monitored, moves nothing.
   */
  lemma RemoveKeepsMean(ids: seq<string>, r: Readings, id: string)
    requires NoDuplicates(ids)
    requires id in r <==> id in ids
    ensures Mean(Without(ids, id), r - {id}) ==
            if HasReading(r, id) then RemoveStep(Mean(ids, r), CountWithReading(Without(ids, id), r - {id}), Latest(r, id))
            else Mean(ids, r)
  {
    RemoveCountSum(ids, r, id);
    var rest, r' := Without(ids, id), r - {id};
    var n, s := CountWithReading(rest, r'), SumLatest(rest, r');
    if n == 0 {
      NoneCountedSumsToZero(rest, r');
    }
    if HasReading(r, id) {
      RatioRemove(CountWithReading(ids, r), SumLatest(ids, r), n, s, Latest(r, id), true);
    } else {
      RatioRemove(CountWithReading(ids, r), SumLatest(ids, r), n, s, 0.0, false);
    }
  }

  /** RemoveStep on means written as ratios: from `cAll` values summing to `sAll`, one value `v` is dropped when `has`. */
  lemma RatioRemove(cAll: nat, sAll: real, c: nat, s: real, v: real, has: bool)
    requires c == 0 ==> s == 0.0
    requires cAll == c + (if has then 1 else 0) && sAll == s + (if has then v else 0.0)
    ensures Ratio(s, c) == if has then RemoveStep(Ratio(sAll, cAll), c, v) else Ratio(sAll, cAll)
  {
    if has {
      RemoveStepIsMean(s, c, v);
    }
  }

  /** Dropping an id from a duplicate-free list removes exactly its share of the count and the sum. */
  lemma RemoveCountSum(ids: seq<string>, r: Readings, id: string)
    requires NoDuplicates(ids)
    requires id in r <==> id in ids
    ensures CountWithReading(ids, r) ==
            CountWithReading(Without(ids, id), r - {id}) + (if HasReading(r, id) then 1 else 0)
    ensures SumLatest(ids, r) ==
            SumLatest(Without(ids, id), r - {id}) + (if HasReading(r, id) then Latest(r, id) else 0.0)
  {
    var rest := Without(ids, id);
    CountSumFrame(rest, r, r - {id});
    if id in ids {
      CountSumWithout(ids, id, r);
    }
  }

  /** A refresh never gives a reading to a patient without one, nor takes one away: the count is unchanged. */
  lemma {:induction false} RefreshKeepsCount(ids: seq<string>, r: Readings, kind: Kind, depth: nat, fetch: Fetch)
    ensures CountWithReading(ids, Refreshed(r, kind, depth, fetch)) == CountWithReading(ids, r)
  {
    if ids != [] {
      RefreshKeepsCount(ids[1..], r, kind, depth, fetch);
    }
  }

  lemma {:induction false} SumNonNegative(ids: seq<string>, r: Readings)
    requires forall k :: k in ids && HasReading(r, k) ==> Latest(r, k) >= 0.0
    ensures SumLatest(ids, r) >= 0.0
  {
    if ids != [] {
      SumNonNegative(ids[1..], r);
    }
  }

  /** With non-negative readings (cholesterol in mg/dL), the sentinel -1 appears exactly when nobody has a reading. */
  lemma MeanSentinelExactlyWhenEmpty(ids: seq<string>, r: Readings)
    requires forall k :: k in ids && HasReading(r, k) ==> Latest(r, k) >= 0.0
    ensures Mean(ids, r) == -1.0 <==> CountWithReading(ids, r) == 0
    ensures CountWithReading(ids, r) > 0 ==> Mean(ids, r) >= 0.0
  {
    SumNonNegative(ids, r);
  }

  class MonitoringListAverage {
    const base: MonitoringList
    /** The number of members that have a reading. */
    var numPatients: int
    var average: real

    /** The count and the average are exact, and the threshold is the average. */
    ghost predicate Valid()
      reads this, base, base.patients.Values
    {
      base.Valid() && base.numHistoric == 1 &&
      numPatients == CountWithReading(base.order, base.Readings()) &&
      average == Mean(base.order, base.Readings()) &&
      base.threshold == average
    }

    /** Empty, count 0, average and threshold -1. */
    constructor (encounterType: Kind)
      ensures Valid() && fresh(base)
      ensures base.encounterType == encounterType && base.patients == map[] && base.order == []
      ensures numPatients == 0 && average == -1.0 && base.threshold == -1.0
    {
      base := new MonitoringList(encounterType, -1.0, 1);
      numPatients := 0;
      average := -1.0;
    }

    /** Adds `p` when its id is new; a new member with a reading moves count and average by one step. */
    method Add(p: Patient)
      requires Valid()
      modifies this, base
      ensures Valid()
      ensures base.patients == if p.id in old(base.patients) then old(base.patients)
                               else old(base.patients)[p.id := p]
      ensures base.order == if p.id in old(base.patients) then old(base.order) else old(base.order) + [p.id]
      ensures base.Readings() == if p.id in old(base.patients) then old(base.Readings())
                                 else old(base.Readings())[p.id := p.encounters]
      ensures numPatients ==
              if p.id !in old(base.patients) && p.encounters != [] then old(numPatients) + 1 else old(numPatients)
      ensures average ==
              if p.id !in old(base.patients) && p.encounters != [] then AddStep(old(average), numPatients, p.encounters[0].value)
              else old(average)
    {
      ghost var ids, r := base.order, base.Readings();
      var wasAdded := base.Add(p);
      if wasAdded {
        AdmitReading(p, ids, r);
      }
    }

    /**
     * The count/average half of add for a new member `p` joining members
     * `ids` with readings `r`: count, average and threshold become those of
     * the list with `p`.
     */
    method AdmitReading(p: Patient, ghost ids: seq<string>, ghost r: Readings)
      requires p.id !in ids
      requires numPatients == CountWithReading(ids, r) && average == Mean(ids, r) && base.threshold == average
      modifies this, base`threshold
      ensures base.threshold == average && base.Readings() == old(base.Readings())
      ensures numPatients == CountWithReading(ids + [p.id], r[p.id := p.encounters])
      ensures average == Mean(ids + [p.id], r[p.id := p.encounters])
      ensures numPatients == if p.encounters != [] then old(numPatients) + 1 else old(numPatients)
      ensures average == if p.encounters != [] then AddStep(old(average), numPatients, p.encounters[0].value) else old(average)
    {
      assert CountWithReading(ids + [p.id], r[p.id := p.encounters]) == numPatients + (if p.encounters != [] then 1 else 0) &&
             Mean(ids + [p.id], r[p.id := p.encounters]) ==
               if p.encounters != [] then AddStep(average, numPatients + 1, p.encounters[0].value) else average by {
        AddCountSum(ids, r, p.id, p.encounters);
        AddKeepsMean(ids, r, p.id, p.encounters);
      }
      var encounters := p.GetEncounters();
      if encounters.Some? {
        var encounter := encounters.value[0];
        IncludeReading(encounter.GetValue());
      }
    }

    /** The count/average step of add for a new member whose latest value is `newValue`. */
    method IncludeReading(newValue: real)
      requires numPatients >= 0
      modifies this, base`threshold
      ensures numPatients == old(numPatients) + 1
      ensures average == AddStep(old(average), numPatients, newValue)
      ensures base.threshold == average && base.Readings() == old(base.Readings())
    {
      numPatients := numPatients + 1;
      if numPatients == 1 {
        average := newValue;
      } else {
        average := AddFormula(average, numPatients, newValue);
      }
      base.SetThreshold(average);
    }

    /** Removes `patientId`; if it had a reading, count and average first move back by one step. */
    method Remove(patientId: string)
      requires Valid()
      modifies this, base
      ensures Valid()
      ensures base.patients == old(base.patients) - {patientId}
      ensures base.order == Without(old(base.order), patientId)
      ensures base.Readings() == old(base.Readings()) - {patientId}
      ensures numPatients ==
              if HasReading(old(base.Readings()), patientId) then old(numPatients) - 1 else old(numPatients)
      ensures average ==
              if HasReading(old(base.Readings()), patientId)
              then RemoveStep(old(average), numPatients, Latest(old(base.Readings()), patientId))
              else old(average)
    {
      RetractReading(patientId);
      base.Remove(patientId);
    }

    /**
     * The count/average half of remove: afterwards count, average and
     * threshold are those of the list without `patientId`, and the list
     * itself is unchanged.
     */
    method RetractReading(patientId: string)
      requires Valid()
      modifies this, base`threshold
      ensures base.threshold == average && base.Readings() == old(base.Readings())
      ensures numPatients == CountWithReading(Without(old(base.order), patientId), old(base.Readings()) - {patientId})
      ensures average == Mean(Without(old(base.order), patientId), old(base.Readings()) - {patientId})
      ensures numPatients ==
              if HasReading(old(base.Readings()), patientId) then old(numPatients) - 1 else old(numPatients)
      ensures average ==
              if HasReading(old(base.Readings()), patientId)
              then RemoveStep(old(average), numPatients, Latest(old(base.Readings()), patientId))
              else old(average)
    {
      ghost var ids, r := base.order, base.Readings();
      ghost var has := HasReading(r, patientId);
      ghost var n, a := numPatients, average;
      ghost var n', a' := CountWithReading(Without(ids, patientId), r - {patientId}), Mean(Without(ids, patientId), r - {patientId});
      assert n' == n - (if has then 1 else 0) && a' == if has then RemoveStep(a, n - 1, Latest(r, patientId)) else a by {
        RemoveCountSum(ids, r, patientId);
        RemoveKeepsMean(ids, r, patientId);
      }
      var encounter := base.GetNthEncounter(patientId, 0);
      if encounter.Some? {
        assert has && encounter.value.GetValue() == Latest(r, patientId);
        ExcludeReading(encounter.value.GetValue());
      }
    }

    /** The count/average step of remove for a member with a reading whose latest value is `oldValue`. */
    method ExcludeReading(oldValue: real)
      requires numPatients >= 1
      modifies this, base`threshold
      ensures numPatients == old(numPatients) - 1
      ensures average == RemoveStep(old(average), numPatients, oldValue)
      ensures base.threshold == average && base.Readings() == old(base.Readings())
    {
      numPatients := numPatients - 1;
      if numPatients == 0 {
        average := -1.0;
      } else {
        average := RemoveFormula(average, numPatients, oldValue);
      }
      base.SetThreshold(average);
    }

    /** `__updateAverage`: recomputes count and average over all members and republishes the threshold. */
    method UpdateAverage()
      requires base.Valid() && base.numHistoric == 1
      modifies this, base`threshold
      ensures Valid() && base.Readings() == old(base.Readings())
    {
      var newSum, newTotal := SumLatestReadings();
      ghost var r := base.Readings();
      numPatients := newTotal;
      if newTotal == 0 {
        average := -1.0;
      } else {
        average := newSum / newTotal as real;
      }
      assert base.Readings() == r;
      base.SetThreshold(average);
    }

    /** The loop of `__updateAverage`: the sum and the number of the members' latest readings, in member order. */
    method SumLatestReadings() returns (newSum: real, newTotal: nat)
      requires base.Valid()
      ensures newSum == SumLatest(base.order, base.Readings())
      ensures newTotal == CountWithReading(base.order, base.Readings())
    {
      ghost var r := base.Readings();
      newSum, newTotal := 0.0, 0;
      var patientIds := base.GetPatientIds();
      var i := 0;
      while i < |patientIds|
        invariant 0 <= i <= |patientIds|
        invariant newSum == SumLatest(patientIds[..i], r)
        invariant newTotal == CountWithReading(patientIds[..i], r)
      {
        CountSumAppend(patientIds[..i], patientIds[i], r);
        assert patientIds[..i + 1] == patientIds[..i] + [patientIds[i]];
        var encounter := base.GetNthEncounter(patientIds[i], 0);
        if encounter.Some? {
          newSum := newSum + encounter.value.GetValue();
          newTotal := newTotal + 1;
        }
        i := i + 1;
      }
      assert patientIds[..i] == patientIds;
    }

    /** Refreshes the members' readings, then recomputes; no member joins or leaves and the count stays the same. */
    method Update(fetch: Fetch)
      requires Valid()
      modifies this, base`threshold, base.patients.Values
      ensures Valid()
      ensures base.patients == old(base.patients) && base.order == old(base.order)
      ensures base.Readings() == Refreshed(old(base.Readings()), base.encounterType, 1, fetch)
      ensures numPatients == old(numPatients)
      ensures old(base.ReadingsFit()) && Respects(fetch) ==> base.ReadingsFit()
    {
      ghost var refreshed := Refreshed(base.Readings(), base.encounterType, 1, fetch);
      base.Update(fetch);
      assert base.Readings() == refreshed;
      UpdateAverage();
      assert base.Readings() == refreshed;
      RefreshKeepsCount(base.order, old(base.Readings()), base.encounterType, 1, fetch);
    }

    /** The mean of the latest readings over the members that have one, or -1. */
    function GetAverage(): (a: real)
      requires Valid()
      reads this, base, base.patients.Values
      ensures a == Mean(base.order, base.Readings())
    {
      average
    }
  }
}
