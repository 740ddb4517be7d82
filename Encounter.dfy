/**
 * A measurement ("encounter"): an immutable timestamped reading of one kind.
 * The source's abstract base class with one subclass per kind becomes a
 * single datatype whose `kind` tag names the subclass; there is no value
 * of this type without a kind, just as the abstract base cannot be built.
 */
module Encounters {

  /** The concrete subclasses: cholesterol, systolic and diastolic readings. */
  datatype Kind = Cholesterol | Systolic | Diastolic

  /** `dateTime` is the timestamp string from the server; `value` the reading. */
  datatype Encounter = Encounter(kind: Kind, dateTime: string, value: real)
  {
    function GetDateTime(): string { dateTime }

    function GetValue(): real { value }
  }

  /** Constructing an encounter of a concrete kind: its getters give back exactly what it was built from. */
  function NewEncounter(kind: Kind, dateTime: string, value: real): (e: Encounter)
    ensures e.GetDateTime() == dateTime
    ensures e.GetValue() == value
    ensures e.kind == kind
  {
    Encounter(kind, dateTime, value)
  }
}
