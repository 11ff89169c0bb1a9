/**
 * Client sequences that the package's own tests exercise, stated over whole runs of
 * container operations rather than single calls.
 */
module StatScenarios {
  import opened Failures
  import opened StatModifiers
  import opened BaseValueHandlers
  import opened StatRecompute
  import opened Stats
  import opened StatsContainers

  /**
   * Taking a snapshot and applying it straight back, with no base-value handler
   * registered, leaves every base value and the iteration order as they were.
   */
  method SnapshotThenRestore(c: StatsContainer)
    requires c.Valid() && c.baseHandlers == map[]
    modifies c`stats, c`order, c`baseValues, c`statObjects, c`events
    modifies c.statObjects`baseValue, c.statObjects`currentValue, c.statObjects`events
    ensures c.Valid()
    ensures c.baseValues == old(c.baseValues) && c.order == old(c.order)
  {
    var state := c.GetState();
    var restored := c.ApplyState(state);
    SnapshotRoundTrip(state, old(c.order), old(c.baseValues));
  }

  /**
   * A clamping handler filters writes to its stat; once it is unregistered the raw
   * value is stored again.
   */
  method ClampThenUnregister(c: StatsContainer, name: string, value: real)
    returns (clamped: Result<real, StatError>, raw: Result<real, StatError>)
    requires c.Valid() && name in c.stats && name !in c.baseHandlers
    modifies c`baseHandlers, c`events, c`baseValues
    modifies c.statObjects`baseValue, c.statObjects`currentValue, c.statObjects`events
    ensures clamped == Success(if value < 0.0 then 0.0 else value)
    ensures raw == Success(value)
  {
    var registered := c.RegisterBaseValueHandler(ClampNonNegative(name));
    var written := c.SetStatBaseValue(name, value, false);
    clamped := c.GetStatBaseValue(name);
    c.UnregisterBaseValueHandler(name);
    written := c.SetStatBaseValue(name, value, false);
    raw := c.GetStatBaseValue(name);
  }

  /**
   * The same Additive modifier added twice counts twice; removing its id once takes
   * one copy away, removing it with `removeAll` takes both.
   */
  method AddTwiceThenRemove(s: Stat, removeAll: bool) returns (afterAdds: real, afterRemove: real)
    requires s.Valid() && s.modifiers == []
    modifies s`modifiers, s`currentValue, s`events
    ensures afterAdds == s.baseValue + 2.0
    ensures afterRemove == if removeAll then s.baseValue else s.baseValue + 1.0
  {
    var m := StatModifier("test", Additive, 1.0, 0, None);
    s.AddModifier(m);
    s.AddModifier(m);
    AdditiveOnly(s.baseValue, [m, m]);
    assert s.modifiers == [m, m];
    assert [m, m][..1] == [m] && [m][..0] == [];
    assert SumOf([m], Additive) == SumOf([], Additive) + 1.0 == 1.0;
    assert SumOf([m, m], Additive) == SumOf([m], Additive) + 1.0 == 2.0;
    afterAdds := s.currentValue;
    s.RemoveModifier("test", removeAll);
    if removeAll {
      RemoveAllOfSharedIdRestoresBase(s.baseValue, [m, m], "test");
    } else {
      assert FirstIndexOf([m, m], "test") == Some(0);
      assert s.modifiers == [m];
      AdditiveOnly(s.baseValue, [m]);
    }
    afterRemove := s.currentValue;
  }
}
