/** Runtime/StatModifier.cs: the operation kinds and the immutable modifier value. */
module StatModifiers {
  import opened Failures

  /** The four ways a modifier acts on a stat. */
  datatype OperationType = Additive | Multiplicative | Override | Custom

  /** A custom calculation receives the stat's base value and the value computed so far. */
  type CustomCalculation = (real, real) -> real

  /**
   * One modifier. `priority` is only consulted for Override modifiers and
   * `customCalculation` only for Custom ones; None stands for a null delegate.
   * Ids need not be unique: several modifiers may share one so that they can be removed together.
   */
  datatype StatModifier = StatModifier(
    id: string,
    operationType: OperationType,
    magnitude: real,
    priority: int,
    customCalculation: Option<CustomCalculation>)

  /** What the constructor guarantees: a Custom modifier always carries its calculation. */
  predicate ValidModifier(m: StatModifier) {
    m.operationType == Custom ==> m.customCalculation.Some?
  }

  /** Every modifier of a list is one the constructor could have built. */
  predicate AllValid(s: seq<StatModifier>) {
    forall i :: 0 <= i < |s| ==> ValidModifier(s[i])
  }

  /**
   * The StatModifier constructor: stores its arguments, and fails when a Custom
   * modifier is requested without a calculation. No other kind checks its delegate.
   */
  function NewStatModifier(
    id: string,
    operationType: OperationType,
    magnitude: real,
    priority: int,
    customCalculation: Option<CustomCalculation>): (r: Result<StatModifier, StatError>)
    ensures r.Failure? <==> operationType == Custom && customCalculation.None?
    ensures r.Failure? ==> r.error == MissingCustomCalculation
    ensures r.Success? ==> ValidModifier(r.value)
    ensures r.Success? ==>
      && r.value.id == id && r.value.operationType == operationType
      && r.value.magnitude == magnitude && r.value.priority == priority
      && r.value.customCalculation == customCalculation
  {
    if operationType == Custom && customCalculation.None? then
      Failure(MissingCustomCalculation)
    else
      Success(StatModifier(id, operationType, magnitude, priority, customCalculation))
  }

  /** The constructor called with its optional parameters omitted: priority 0, no calculation. */
  function NewStatModifierWithDefaults(id: string, operationType: OperationType, magnitude: real)
    : (r: Result<StatModifier, StatError>)
    ensures r.Success? <==> operationType != Custom
    ensures r.Success? ==> r.value.priority == 0 && r.value.customCalculation.None?
    ensures r.Success? ==> r.value.id == id && r.value.operationType == operationType && r.value.magnitude == magnitude
  {
    NewStatModifier(id, operationType, magnitude, 0, None)
  }

  /** The constructor builds exactly the valid modifiers: each one is rebuilt from its own fields. */
  lemma ValidModifiersAreConstructible(m: StatModifier)
    requires ValidModifier(m)
    ensures NewStatModifier(m.id, m.operationType, m.magnitude, m.priority, m.customCalculation) == Success(m)
  {
  }
}
