/**
 * Runtime/Stat.cs: one named quantity with a base value, an ordered modifier list
 * and a derived current value that every mutation recomputes before it notifies.
 */
module Stats {
  import opened Failures
  import opened StatModifiers
  import opened StatRecompute

  /**
   * The payload of a change notification. `statCurrentValue` is what a subscriber reading
   * the stat's CurrentValue sees during dispatch (the stat reference itself is not kept).
   */
  datatype StatChangedEventArgs = StatChangedEventArgs(
    id: string,
    oldBaseValue: real,
    newBaseValue: real,
    statCurrentValue: real)

  /** One raised notification, tagged with the event it was raised on. */
  datatype StatEvent =
    | BaseValueChanged(args: StatChangedEventArgs)
    | ModifierAdded(args: StatChangedEventArgs)
    | ModifierRemoved(args: StatChangedEventArgs)

  class Stat {
    const name: string
    var baseValue: real
    var currentValue: real
    var modifiers: seq<StatModifier>
    /** Every notification this stat has raised, oldest first. */
    var events: seq<StatEvent>

    /** The current value is never stale, and every modifier is one the constructor could build. */
    ghost predicate Valid()
      reads this`baseValue, this`currentValue, this`modifiers
    {
      currentValue == Compute(baseValue, modifiers) && AllValid(modifiers)
    }

    /** A new stat: current value equal to the base value, no modifiers, nothing raised yet. */
    constructor (name: string, baseValue: real)
      ensures Valid()
      ensures this.name == name && this.baseValue == baseValue
      ensures currentValue == baseValue && modifiers == [] && events == []
    {
      this.name := name;
      this.baseValue := baseValue;
      currentValue := baseValue;
      modifiers := [];
      events := [];
    }

    /** The BaseValue setter: store, recompute, then raise BaseValueChanged with the old and new base. */
    method SetBaseValue(value: real)
      requires Valid()
      modifies this`baseValue, this`currentValue, this`events
      ensures Valid()
      ensures baseValue == value
      ensures events == old(events) +
        [BaseValueChanged(StatChangedEventArgs(name, old(baseValue), value, Compute(value, modifiers)))]
    {
      var oldValue := baseValue;
      baseValue := value;
      RecalculateCurrentValue();
      events := events + [BaseValueChanged(StatChangedEventArgs(name, oldValue, baseValue, currentValue))];
    }

    /** Appends the modifier (no de-duplication), recomputes, then raises ModifierAdded. */
    method AddModifier(modifier: StatModifier)
      requires Valid() && ValidModifier(modifier)
      modifies this`modifiers, this`currentValue, this`events
      ensures Valid()
      ensures modifiers == old(modifiers) + [modifier]
      ensures events == old(events) +
        [ModifierAdded(StatChangedEventArgs(name, baseValue, baseValue, Compute(baseValue, modifiers)))]
    {
      modifiers := modifiers + [modifier];
      RecalculateCurrentValue();
      events := events + [ModifierAdded(StatChangedEventArgs(name, baseValue, baseValue, currentValue))];
    }

    /**
     * Removes the first modifier with this id, or every one when `removeAll` holds;
     * when no modifier carries the id nothing changes and nothing is raised.
     */
    method RemoveModifier(id: string, removeAll: bool)
      requires Valid()
      modifies this`modifiers, this`currentValue, this`events
      ensures Valid()
      ensures modifiers == if removeAll then RemoveAll(old(modifiers), id) else RemoveFirst(old(modifiers), id)
      ensures !HasId(old(modifiers), id) ==> modifiers == old(modifiers) && currentValue == old(currentValue)
      ensures events == if HasId(old(modifiers), id)
        then old(events) + [ModifierRemoved(StatChangedEventArgs(name, baseValue, baseValue, Compute(baseValue, modifiers)))]
        else old(events)
    {
      FirstIndexOfIsFirst(modifiers, id);
      var first := FirstIndexOf(modifiers, id);
      if first.Some? {
        if removeAll {
          RemoveAllKeepsValid(modifiers, id);
          modifiers := RemoveAll(modifiers, id);
        } else {
          RemoveFirstKeepsValid(modifiers, id);
          var k := first.value;
          modifiers := modifiers[..k] + modifiers[k + 1..];
        }
        RecalculateCurrentValue();
        events := events + [ModifierRemoved(StatChangedEventArgs(name, baseValue, baseValue, currentValue))];
      } else {
        RemoveAllNoMatch(modifiers, id);
      }
    }

    /** The whole value rule: sets the current value from the base value and the modifiers. */
    method RecalculateCurrentValue()
      modifies this`currentValue
      ensures currentValue == Compute(baseValue, modifiers)
    {
      WinnerIsLastMaximalOverride(modifiers);
      currentValue := baseValue;
      if |modifiers| == 0 {
        return;
      }
      var overridden, overrideMagnitude := CalculateOverride();
      if overridden {
        currentValue := overrideMagnitude;
      } else {
        var additive := CalculateAdditive();
        var multiplicative := CalculateMultiplicative();
        currentValue := baseValue + additive;
        currentValue := currentValue + currentValue * multiplicative;
        currentValue := CalculateCustom(currentValue);
      }
    }

    /** The sum of the Additive magnitudes. */
    method CalculateAdditive() returns (totalValue: real)
      ensures totalValue == SumOf(modifiers, Additive)
    {
      totalValue := 0.0;
      var i := 0;
      while i < |modifiers|
        invariant 0 <= i <= |modifiers|
        invariant totalValue == SumOf(modifiers[..i], Additive)
      {
        if modifiers[i].operationType == Additive {
          totalValue := totalValue + modifiers[i].magnitude;
        }
        assert modifiers[..i + 1][..i] == modifiers[..i];
        i := i + 1;
      }
      assert modifiers[..i] == modifiers;
    }

    /** The sum of the Multiplicative magnitudes (a sum of rates, not a product of factors). */
    method CalculateMultiplicative() returns (totalValue: real)
      ensures totalValue == SumOf(modifiers, Multiplicative)
    {
      totalValue := 0.0;
      var i := 0;
      while i < |modifiers|
        invariant 0 <= i <= |modifiers|
        invariant totalValue == SumOf(modifiers[..i], Multiplicative)
      {
        if modifiers[i].operationType == Multiplicative {
          totalValue := totalValue + modifiers[i].magnitude;
        }
        assert modifiers[..i + 1][..i] == modifiers[..i];
        i := i + 1;
      }
      assert modifiers[..i] == modifiers;
    }

    /**
     * Whether an Override is present and, if so, the magnitude of the one picked by
     * the priority fold (the last among those of highest priority).
     */
    method CalculateOverride() returns (found: bool, magnitude: real)
      ensures found <==> HasOverride(modifiers)
      ensures found ==> exists k :: IsLastMaximalOverride(modifiers, k) && magnitude == modifiers[k].magnitude
    {
      var best: Option<nat> := None;
      var i := 0;
      while i < |modifiers|
        invariant 0 <= i <= |modifiers|
        invariant best == Winner(modifiers[..i])
      {
        var m := modifiers[i];
        if m.operationType == Override {
          if best.None? || !(modifiers[best.value].priority > m.priority) {
            best := Some(i);
          }
        }
        assert modifiers[..i + 1][..i] == modifiers[..i];
        i := i + 1;
      }
      assert modifiers[..i] == modifiers;
      WinnerIsLastMaximalOverride(modifiers);
      found := best.Some?;
      magnitude := if found then modifiers[best.value].magnitude else 0.0;
    }

    /** Runs every Custom calculation in list order on `start`, each receiving the base value. */
    method CalculateCustom(start: real) returns (value: real)
      ensures value == CustomFold(baseValue, start, modifiers)
    {
      value := start;
      var i := 0;
      while i < |modifiers|
        invariant 0 <= i <= |modifiers|
        invariant value == CustomFold(baseValue, start, modifiers[..i])
      {
        var m := modifiers[i];
        if m.operationType == Custom && m.customCalculation.Some? {
          value := (m.customCalculation.value)(baseValue, value);
        }
        assert modifiers[..i + 1][..i] == modifiers[..i];
        i := i + 1;
      }
      assert modifiers[..i] == modifiers;
    }
  }

  /** Filtering by id keeps only modifiers of the original list, so validity survives. */
  lemma {:induction false} RemoveAllKeepsValid(s: seq<StatModifier>, id: string)
    requires AllValid(s)
    ensures AllValid(RemoveAll(s, id))
    decreases |s|
  {
    if |s| > 0 {
      RemoveAllKeepsValid(s[1..], id);
      var head := if s[0].id == id then [] else [s[0]];
      assert RemoveAll(s, id) == head + RemoveAll(s[1..], id);
    }
  }

  /** Dropping one entry keeps only modifiers of the original list, so validity survives. */
  lemma RemoveFirstKeepsValid(s: seq<StatModifier>, id: string)
    requires AllValid(s)
    ensures AllValid(RemoveFirst(s, id))
  {
    match FirstIndexOf(s, id)
    case None =>
    case Some(k) =>
      var r := s[..k] + s[k + 1..];
      assert forall i :: 0 <= i < |r| ==> r[i] == (if i < k then s[i] else s[i + 1]);
  }
}
