/**
 * A patient: fixed identity and demographics, plus the list of readings of
 * the one measurement kind a monitoring list watches (newest first). The
 * list is the only state that changes, and it is always replaced whole.
 */
module Patients {

  import opened Optional
  import opened Encounters
  import Text

  /** "{fname} {lname}". */
  function FullName(fname: string, lname: string): string
  {
    Text.Join([fname, lname], " ")
  }

  /** "Birthdate: b", "Gender: g" and "Address: s, c, st, co", separated by two tabs. */
  function ExtraInfo(birthdate: string, gender: string, street: string, city: string,
                     state: string, country: string): string
  {
    Text.Join(["Birthdate: " + birthdate, "", "Gender: " + gender, "",
               "Address: " + Text.Join([street, city, state, country], ", ")], "\t")
  }

  /**
   * The server's names are reduced to letters before a Patient is built
   * (WebServiceManager.py:88-89), so they hold no space: the full name then
   * splits back into the first and the last name.
   */
  lemma FullNameSplits(fname: string, lname: string)
    requires ' ' !in fname && ' ' !in lname
    ensures Text.Split(FullName(fname, lname), ' ') == [fname, lname]
  {
    Text.SplitJoin([fname, lname], ' ');
  }

  /** With tab-free fields, splitting the extra info at tabs gives the three labelled parts with an empty part between each. */
  lemma ExtraInfoSplits(birthdate: string, gender: string, street: string, city: string,
                        state: string, country: string)
    requires '\t' !in birthdate && '\t' !in gender
    requires '\t' !in street && '\t' !in city && '\t' !in state && '\t' !in country
    ensures Text.Split(ExtraInfo(birthdate, gender, street, city, state, country), '\t')
         == ["Birthdate: " + birthdate, "", "Gender: " + gender, "",
             "Address: " + Text.Join([street, city, state, country], ", ")]
  {
    var address := Text.Join([street, city, state, country], ", ");
    AddressAvoidsTab(street, city, state, country);
    var pieces := ["Birthdate: " + birthdate, "", "Gender: " + gender, "", "Address: " + address];
    assert Text.Avoids(pieces, '\t');
    Text.SplitJoin(pieces, '\t');
  }

  lemma AddressAvoidsTab(street: string, city: string, state: string, country: string)
    requires '\t' !in street && '\t' !in city && '\t' !in state && '\t' !in country
    ensures '\t' !in Text.Join([street, city, state, country], ", ")
  {
    Text.JoinAvoids([street, city, state, country], ", ", '\t');
  }

  class Patient {
    const id: string
    const fname: string
    const lname: string
    const birthdate: string
    const gender: string
    const street: string
    const city: string
    const state: string
    const country: string
    /** The readings, newest first; empty stands for both `[]` and `None` in the source. */
    var encounters: seq<Encounter>

    /** A new patient has no readings. */
    constructor (id: string, fname: string, lname: string, birthdate: string, gender: string,
                 street: string, city: string, state: string, country: string)
      ensures this.id == id && this.fname == fname && this.lname == lname
      ensures this.birthdate == birthdate && this.gender == gender
      ensures this.street == street && this.city == city && this.state == state && this.country == country
      ensures encounters == []
    {
      this.id := id;
      this.fname := fname;
      this.lname := lname;
      this.birthdate := birthdate;
      this.gender := gender;
      this.street := street;
      this.city := city;
      this.state := state;
      this.country := country;
      encounters := [];
    }

    /** Replaces the readings wholesale; identity and demographics are constants. */
    method UpdateEncounters(es: seq<Encounter>)
      modifies this
      ensures encounters == es
    {
      encounters := es;
    }

    /** None when there is no reading, otherwise (a copy of) the whole list. */
    function GetEncounters(): (r: Option<seq<Encounter>>)
      reads this
      ensures r.None? <==> encounters == []
      ensures r.Some? ==> r.value == encounters && |r.value| >= 1
    {
      if encounters != [] then Some(encounters) else None
    }

    function GetId(): string
    {
      id
    }

    function GetFullName(): string
    {
      FullName(fname, lname)
    }

    function GetExtraInfo(): string
    {
      ExtraInfo(birthdate, gender, street, city, state, country)
    }

    /** This patient holds the same identity, demographics and readings as `q`. */
    ghost predicate IsCopyOf(q: Patient)
      reads this, q
    {
      SameDetails(q) && encounters == q.encounters
    }

    /** This patient has the same identity and demographics as `q`; the readings may differ. */
    predicate SameDetails(q: Patient)
    {
      id == q.id && fname == q.fname && lname == q.lname && birthdate == q.birthdate &&
      gender == q.gender && street == q.street && city == q.city && state == q.state &&
      country == q.country
    }

    /** `copy.deepcopy(self)`: a new, unshared object with equal contents. */
    method Copy() returns (c: Patient)
      ensures fresh(c) && c.IsCopyOf(this)
    {
      c := new Patient(id, fname, lname, birthdate, gender, street, city, state, country);
      c.encounters := encounters;
    }
  }
}
