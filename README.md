# Stat system model

This is a Dafny model of the modifier-resolution engine of a Unity stat package. It covers four files:

- **`Stat`** (Runtime/Stat.cs): a named quantity with a base value and an ordered list of modifiers. After every mutation it recomputes a current value, then it raises a change notification.
- **`StatsContainer`** (Runtime/StatsContainer.cs): a registry of stats keyed by name. It holds one base-value handler per stat name, which rewrites writes made through the container. It also stores current-value handlers, which nothing consults. It re-raises the stats' notifications, logs a warning on modifier operations for unknown names, and can take and restore a snapshot of base values.
- **`StatModifier`** (Runtime/StatModifier.cs): an immutable value with an id, a kind (Additive, Multiplicative, Override, Custom), a magnitude, a priority and an optional custom calculation.
- **`StatBaseValueChangeHandler`** (Runtime/StatBaseValueChangeHandler.cs): a target stat name bound to a delegate.

How the model is laid out:

| file | module | what it holds |
|---|---|---|
| `failures.dfy` | `Failures` | `Option`, `Result` and `Outcome`, plus the hard failures of the source (duplicate stat, unknown stat, duplicate handler, Custom modifier without a calculation) |
| `stat_modifier.dfy` | `StatModifiers` | the modifier datatype and its checked constructor |
| `base_value_handler.dfy` | `BaseValueHandlers` | the handler datatype |
| `stat_recompute.dfy` | `StatRecompute` | the value rule as pure functions (`Compute`), with its lemmas; the removal of modifiers by id as list functions |
| `stat.dfy` | `Stats` | `class Stat`, whose methods keep `currentValue == Compute(baseValue, modifiers)` |
| `stats_container.dfy` | `StatsContainers` | `class StatsContainer`, the snapshot functions and the debug report |
| `scenarios.dfy` | `StatScenarios` | runs of several operations that the package's own tests exercise |

Modelling choices:

- Values are `real`.
- A C# exception is a `Failure`/`Fail` result. The state stays as it was, except in `AddStatRange`: it throws at the first taken name, and the stats added before that name stay added (Runtime/StatsContainer.cs:84-87).
- Each C# event is a log: `Stat.events` and `StatsContainer.events` record every notification raised, oldest first. Each payload also records the current value that a subscriber would read during dispatch. This shows that the recompute happens before the notification.
- `Debug.LogWarning` becomes an entry appended to `StatsContainer.warnings`.
- The container's `Dictionary<string, Stat>` is a `map` plus an `order` sequence. `order` gives the enumeration order, which is the order of insertion, because nothing ever removes a stat.
- Two ghost fields support the proofs. `baseValues` is a view of every stat's base value by name, and it is what snapshots are compared against. `statObjects` is the set of stat objects the container may read and change.
- Delegates are pure Dafny function values. A Custom calculation is `(base, current) -> real`. A handler is `(statName, requested) -> real`.

Where the code differs from what one might assume, the model follows the code:

- On a priority tie between Overrides, the **last** maximal one wins. The fold `Aggregate((x, y) => x.priority > y.priority ? x : y)` keeps `y` when the priorities are equal (Runtime/Stat.cs:186).
- `StatsContainer.RemoveModifier` returns nothing and removes only the first match.
- `SetOrAddStat` always writes through `SetStatBaseValue`, even right after it created the stat. A registered handler therefore filters the initial value too.
- `AddToStatBaseValue` writes current value + delta, not base value + delta.
- Current-value handlers are stored but never consulted.
- Runtime/StatsContainer.cs:58-60 subscribes to `newStat.onBaseValueChanged`, `onModifierAdded` and `onModifierRemoved`, in lower case. Runtime/Stat.cs:60-62 declares these events as `OnBaseValueChanged` and so on. The model treats the lines as the intended subscriptions: every notification a stored stat raises is re-raised by the container.

## Model

| member | source | states |
|---|---|---|
| StatModifiers.NewStatModifier | Runtime/StatModifier.cs:24-35 | fails exactly for a Custom kind without a calculation, with that error; otherwise the modifier holds exactly the arguments and is valid |
| StatModifiers.NewStatModifierWithDefaults | Runtime/StatModifier.cs:24 | omitted arguments mean priority 0 and no calculation; this succeeds exactly for the non-Custom kinds, with the given id, kind and magnitude |
| StatModifiers.ValidModifiersAreConstructible | Runtime/StatModifier.cs:24-35 | every valid modifier is what the constructor builds from its own fields, so validity is exactly constructibility |
| BaseValueHandlers.HandleValueChange | Runtime/StatBaseValueChangeHandler.cs:18-21 | running a handler returns exactly what its delegate returns for the stat and the requested value, with no processing of its own; the stored target name does not enter the result |
| BaseValueHandlers.ClampNonNegativeResolves | Tests/Editor/StatSystemTests.cs:259-263 | the clamp handler stores max(value, 0): a negative request becomes 0 and any other is kept |
| StatRecompute.SumOfConcat | Runtime/Stat.cs:150-176 | the per-kind sum splits over concatenation |
| StatRecompute.SumOfPermutation | Runtime/Stat.cs:150-176 | any two lists holding the same modifiers (the same multiset) have the same per-kind sum, whatever their order |
| StatRecompute.SumOfRemoveAt | Runtime/Stat.cs:150-176 | removing one modifier removes exactly its contribution from the sum |
| StatRecompute.SumOfAbsent | Runtime/Stat.cs:150-176 | with no modifier of a kind, that kind's sum is 0 |
| StatRecompute.Winner | Runtime/Stat.cs:178-192 | the index the priority fold picks lies inside the list |
| StatRecompute.WinnerIsLastMaximalOverride | Runtime/Stat.cs:178-192 | the fold finds an Override exactly when there is one; what it finds has the highest priority, and no later Override ties it |
| StatRecompute.LastMaximalOverrideUnique | Runtime/Stat.cs:186 | at most one index is the last Override of highest priority, so the winner is determined |
| StatRecompute.CustomFoldAbsent | Runtime/Stat.cs:194-205 | without Custom modifiers the custom pass leaves the value unchanged |
| StatRecompute.ComputeWithoutOverride | Runtime/Stat.cs:133-146 | with no Override, the value is (base + Σadditive)·(1 + Σmultiplicative) passed through the Custom calculations in list order |
| StatRecompute.ComputeWithOverride | Runtime/Stat.cs:178-192 | with an Override, the value is the magnitude of the last Override of highest priority, whatever the base |
| StatRecompute.OverrideIgnoresOtherKinds | Runtime/Stat.cs:132-147 | once an Override is present, adding an Additive, Multiplicative or Custom modifier changes nothing |
| StatRecompute.AdditiveOnly | Runtime/Stat.cs:142-143 | with Additive modifiers only, the value is the base plus their magnitudes |
| StatRecompute.ComputeOrderIndependent | Runtime/Stat.cs:142-143 | with Additive and Multiplicative modifiers only, any reordering of the list (same multiset) gives the same value |
| StatRecompute.CustomAppliedLast | Runtime/Stat.cs:194-205 | an appended Custom modifier receives the original base and the value computed so far, and its result is the value |
| StatRecompute.FirstIndexOf | Runtime/Stat.cs:95 | the index found is in the list and carries the id |
| StatRecompute.FirstIndexOfIsFirst | Runtime/Stat.cs:95 | the search fails exactly when no modifier has the id; otherwise no earlier modifier has it |
| StatRecompute.RemoveAllMembers | Runtime/Stat.cs:101 | after removing all by id, exactly the modifiers of the list whose id differs remain |
| StatRecompute.RemoveFirstLength | Runtime/Stat.cs:105 | removing the first match takes out exactly one entry when the id occurs, and none otherwise |
| StatRecompute.RemoveAllConcat | Runtime/Stat.cs:101 | removing all by id is a filter: it distributes over concatenation, so the relative order is kept |
| StatRecompute.RemoveAllSingleton | Runtime/Stat.cs:101 | a single entry is dropped exactly when it carries the id |
| StatRecompute.RemoveAllOfAbsentId | Runtime/Stat.cs:101 | a list without the id is left as it is |
| StatRecompute.RemoveAllNoMatch | Runtime/Stat.cs:95-101 | removing all leaves the list unchanged exactly when no modifier has the id |
| StatRecompute.RemoveAllAfterRemoveFirst | Runtime/Stat.cs:99-106 | removing the first match before removing all matches changes nothing |
| StatRecompute.RemoveFirstOfAppended | Runtime/Stat.cs:80-106 | adding a modifier with a new id and then removing that id restores the list |
| StatRecompute.RemoveEachAddedIdRestoresBase | Tests/Editor/StatSystemTests.cs:76-96 | removing the id of every added modifier, one first match at a time, empties the list, and the value falls back to the base |
| StatRecompute.RemoveAllOfSharedIdRestoresBase | Tests/Editor/StatSystemTests.cs:213-225 | removing all by an id that every modifier shares empties the list, and the value is the base |
| Stats.Stat.constructor | Runtime/Stat.cs:68-74 | a new stat has current value equal to its base value, no modifiers and no notifications |
| Stats.Stat.SetBaseValue | Runtime/Stat.cs:36-49 | stores the value, recomputes, and raises exactly one BaseValueChanged carrying the old base, the new base and the recomputed value; the modifiers are unchanged |
| Stats.Stat.AddModifier | Runtime/Stat.cs:80-91 | appends exactly this modifier at the end without de-duplication, recomputes, and raises one ModifierAdded with old base equal to new base; the base is unchanged |
| Stats.Stat.RemoveModifier | Runtime/Stat.cs:93-119 | the list becomes the list without the first match, or without every match; with no match nothing changes and nothing is raised; otherwise it recomputes and raises one ModifierRemoved |
| Stats.Stat.RecalculateCurrentValue | Runtime/Stat.cs:125-148 | the current value becomes `Compute(base, modifiers)` |
| Stats.Stat.CalculateAdditive | Runtime/Stat.cs:150-162 | returns the sum of the Additive magnitudes |
| Stats.Stat.CalculateMultiplicative | Runtime/Stat.cs:164-176 | returns the sum of the Multiplicative magnitudes |
| Stats.Stat.CalculateOverride | Runtime/Stat.cs:178-192 | reports an Override exactly when there is one, with the magnitude of the last Override of highest priority |
| Stats.Stat.CalculateCustom | Runtime/Stat.cs:194-205 | folds every Custom calculation in list order, each receiving the base and the running value |
| Stats.RemoveAllKeepsValid | Runtime/Stat.cs:101 | removing all by id keeps every modifier constructible |
| Stats.RemoveFirstKeepsValid | Runtime/Stat.cs:105 | removing the first match keeps every modifier constructible |
| StatsContainers.ContainerId | Runtime/StatsContainer.cs:39-45 | the id is "DefaultStats" for a null or empty argument and the argument otherwise; it is never empty |
| StatsContainers.StatsContainer.constructor | Runtime/StatsContainer.cs:39-45 | a new container is empty: no stats, no handlers, no notifications, no warnings |
| StatsContainers.StatsContainer.StatExists | Runtime/StatsContainer.cs:95-98 | true exactly when the name is among the listed stats |
| StatsContainers.StatsContainer.GetStat | Runtime/StatsContainer.cs:285-291 | succeeds exactly for a present name, with the valid stat of that name; otherwise fails with StatNotFound |
| StatsContainers.StatsContainer.GetStatBaseValue | Runtime/StatsContainer.cs:108-111 | succeeds exactly for a present name, with its base value; otherwise fails with StatNotFound |
| StatsContainers.StatsContainer.GetStatCurrentValue | Runtime/StatsContainer.cs:118-122 | succeeds exactly for a present name, with `Compute` of its base value and modifiers; otherwise fails with StatNotFound |
| StatsContainers.StatsContainer.AddStat | Runtime/StatsContainer.cs:52-63 | fails with DuplicateStat on a taken name and changes nothing; otherwise it stores exactly this stat under its name and appends the name to the order, leaving the others alone |
| StatsContainers.StatsContainer.SetStatBaseValue | Runtime/StatsContainer.cs:130-144 | fails on an absent name and changes nothing; otherwise it stores the handler's answer for the requested value, or the raw value when bypassed or no handler is registered; re-raises exactly one BaseValueChanged; other stats are unchanged |
| StatsContainers.StatsContainer.SetOrAddStat | Runtime/StatsContainer.cs:70-76 | creates an absent stat with no modifiers, appended to the order, then always writes through the handler path; an existing stat keeps its object; other stats are unchanged; the notification log is the old one plus exactly one BaseValueChanged carrying the name, the previous base (the value itself for a new stat), the stored base and the recomputed value |
| StatsContainers.StatsContainer.AddStatRange | Runtime/StatsContainer.cs:82-88 | adds the stats in order and stops at the first taken name with DuplicateStat; the stats before it stay added |
| StatsContainers.StatsContainer.AddToStatBaseValue | Runtime/StatsContainer.cs:152-156 | writes (current value + delta), not (base + delta), through the same handler and bypass path, and the log is the old one plus exactly one BaseValueChanged carrying the name, the previous base, the stored base and the recomputed value; fails on an absent name and changes nothing |
| StatsContainers.StatsContainer.ApplyModifier | Runtime/StatsContainer.cs:163-172 | on an absent name it logs one warning and changes nothing else; otherwise it appends the modifier to that stat and re-raises its ModifierAdded; other stats are unchanged |
| StatsContainers.StatsContainer.RemoveModifier | Runtime/StatsContainer.cs:179-188 | on an absent name it logs one warning and changes nothing else; otherwise it removes only the first match and re-raises ModifierRemoved exactly when something was removed |
| StatsContainers.StatsContainer.RegisterBaseValueHandler | Runtime/StatsContainer.cs:195-201 | a second handler for a name fails with DuplicateHandler; otherwise the handler is stored under its target name |
| StatsContainers.StatsContainer.UnregisterBaseValueHandler | Runtime/StatsContainer.cs:207-213 | the handler for the name is gone; an absent name is a no-op |
| StatsContainers.StatsContainer.RegisterCurrentValueHandler | Runtime/StatsContainer.cs:220-226 | same one-per-name rule; it changes only the current-value handler store, so no stat value depends on it |
| StatsContainers.StatsContainer.UnregisterCurrentValueHandler | Runtime/StatsContainer.cs:232-238 | the current-value handler for the name is gone; an absent name is a no-op |
| StatsContainers.StatsContainer.GetState | Runtime/StatsContainer.cs:253-271 | lists (name, base value) for every stat in iteration order, with a count equal to the number of entries |
| StatsContainers.StatsContainer.ApplyState | Runtime/StatsContainer.cs:273-279 | upserts each entry in order through the handler path: the base values and order are the ones the entries produce one by one; every existing stat keeps its object; no stat is removed; a stat it creates has no modifiers; the log is the old one plus one BaseValueChanged per entry, in entry order |
| StatsContainers.RestoreLogAt | Runtime/StatsContainer.cs:275-277 | the j-th notification ApplyState adds is a BaseValueChanged for the j-th entry's name carrying the base value the handlers store for it |
| StatsContainers.RestoreFixedPoints | Runtime/StatsContainer.cs:273-279 | restoring entries that name known stats, with values their handlers keep, changes no base value |
| StatsContainers.RestoredOrderOfKnownNames | Runtime/StatsContainer.cs:273-279 | restoring names that are all present leaves the iteration order as it was |
| StatsContainers.SnapshotRoundTrip | Runtime/StatsContainer.cs:253-279 | with no base-value handler, applying a container's snapshot leaves every base value and the order unchanged |
| StatsContainers.StatsContainer.GetDebugInfo | Runtime/StatsContainer.cs:240-251 | the report is the header naming the container id, followed by one line `- name: current (Base: base)` per stat in iteration order |
| StatsContainers.DebugReportLineCount | Runtime/StatsContainer.cs:240-251 | when no id, name or rendered number contains a line break, the report has exactly one line per stat after the header |
| StatsContainers.DebugReportStartsWithHeader | Runtime/StatsContainer.cs:242-243 | the report always opens with `= [STATS<id>]` and a line break |
| StatsContainers.LineBreaksConcat | Runtime/StatsContainer.cs:242-248 | counting line breaks splits over concatenation, as the report is built by appending |
| StatScenarios.SnapshotThenRestore | Runtime/StatsContainer.cs:253-279 | GetState followed by ApplyState, with no base-value handler, leaves every base value and the order as they were |
| StatScenarios.ClampThenUnregister | Tests/Editor/StatSystemTests.cs:257-268 | with a clamp handler registered the stored base is max(value, 0); after unregistering, the raw value is stored |
| StatScenarios.AddTwiceThenRemove | Tests/Editor/StatSystemTests.cs:198-225 | adding the same Additive modifier twice adds its magnitude twice; removing its id once removes one copy; removing it with removeAll restores the base |

## Left out

- The Unity binding (Runtime/StatsContainerComponent.cs) and the editor inspector are not part of this model.
- Floating point: values are `real`. Rounding, NaN, infinities and overflow are not captured. In particular, order-independence of the sums holds only in the model.
- Number formatting in `GetDebugInfo` is culture-dependent. It is the parameter `show`, so only the header and the shape of each line are modelled.
- C# multicast-event mechanics are not modelled: subscriber lists, ordering among subscribers, and re-entrancy. Events are log entries, and every delegate (Custom calculation or handler) is a pure function. A delegate that changes the stat or the container during dispatch is not captured.
- The handler delegate also receives the `Stat` object and the container (Runtime/StatBaseValueChangeHandler.cs:9). The model passes only the stat's name and the requested value, because a pure function value cannot read the heap.
- Event payloads carry the stat's name and the current value at dispatch instead of a reference to the `Stat` object.
- Aliasing: the same `Stat` object held by two containers, or changed directly while a container holds it, is not captured. The container's invariant assumes every change to its stats goes through it.
- Exception types (`NullReferenceException` vs `InvalidOperationException`) are collapsed into the `StatError` cases.
- `StatsContainerState` and `StatWrapper` are not defined in the shown files. They are modelled as a count plus a sequence of (name, base value) entries, and `[Serializable]` is not modelled.
- Stats.Stat.AddModifier and StatsContainers.StatsContainer.ApplyModifier: these require the modifier to be valid (a Custom modifier carries its calculation). The constructor guarantees this, but C# fields are public, so code that later sets `customCalculation` to null is not modelled. In the source such a modifier is first appended (Runtime/Stat.cs:82), and the recompute that follows (Runtime/Stat.cs:83) throws only when it reaches the Custom pass, that is when no Override is present (Runtime/Stat.cs:133, 146, 201); with an Override present the null delegate is never called.
- StatsContainers.StatsContainer.ApplyState: for each notification it adds, the contract states the kind, the name and the stored base value, but not the previous base value or the recomputed current value it carries (SetOrAddStat states both for a single entry; the loop contract does not carry them through). The modifier lists of the stats that existed before are untouched through its `modifies` clause, which does not include them, and through the ensures that every such stat keeps its object; a stat it creates is stated to have none.
- The subscription name mismatch at Runtime/StatsContainer.cs:58-60 is read as the intended subscription; the source as written would not compile against Runtime/Stat.cs.
