/**
 * Runtime/StatsContainer.cs: a name-keyed registry of stats, one base-value handler
 * per stat name that rewrites writes made through the container, a store of
 * current-value handlers that nothing consults, forwarding of stat notifications,
 * lenient modifier operations that only warn, and a snapshot/restore of base values.
 */
module StatsContainers {
  import opened Failures
  import opened StatModifiers
  import opened BaseValueHandlers
  import opened StatRecompute
  import opened Stats

  /** The id a container gets when it is given a null or empty one. */
  const DefaultContainerId: string := "DefaultStats"

  /** One snapshot entry: a stat name and its base value. */
  datatype StatWrapper = StatWrapper(statName: string, baseValue: real)

  /** A snapshot of base values; `statCount` mirrors the number of entries. Modifiers are not part of it. */
  datatype StatsContainerState = StatsContainerState(statCount: int, stats: seq<StatWrapper>)

  /** What Debug.LogWarning is asked to report on the lenient paths. */
  datatype Warning =
    | ApplyModifierToMissingStat(statKey: string)
    | RemoveModifierFromMissingStat(statKey: string)

  /** One line of the debug report: a stat's name with its current and base value. */
  datatype DebugRow = DebugRow(name: string, current: real, base: real)

  /** The first line of the debug report, naming the container. */
  function DebugHeader(id: string): string {
    "= [STATS<" + id + ">]\n"
  }

  /** One stat's line; `show` stands for the runtime's culture-dependent number formatting. */
  function DebugLine(row: DebugRow, show: real -> string): string {
    "- " + row.name + ": " + show(row.current) + " (Base: " + show(row.base) + ")\n"
  }

  /** The debug report: the header, then one line per row in order. */
  function DebugReport(id: string, rows: seq<DebugRow>, show: real -> string): string
    decreases |rows|
  {
    if |rows| == 0 then DebugHeader(id)
    else DebugReport(id, rows[..|rows| - 1], show) + DebugLine(rows[|rows| - 1], show)
  }

  /** The number of line breaks in a text. */
  function LineBreaks(s: string): nat
    decreases |s|
  {
    if |s| == 0 then 0 else LineBreaks(s[..|s| - 1]) + (if s[|s| - 1] == '\n' then 1 else 0)
  }

  lemma {:induction false} LineBreaksConcat(a: string, b: string)
    ensures LineBreaks(a + b) == LineBreaks(a) + LineBreaks(b)
    decreases |b|
  {
    if |b| == 0 {
      assert a + b == a;
    } else {
      assert (a + b)[..|a + b| - 1] == a + b[..|b| - 1];
      LineBreaksConcat(a, b[..|b| - 1]);
    }
  }

  /** A text without line breaks, followed by one line break, counts one. */
  lemma LineBreaksOfLine(s: string)
    requires '\n' !in s
    ensures LineBreaks(s + "\n") == 1
  {
    LineBreaksOfText(s);
    assert (s + "\n")[..|s|] == s;
  }

  lemma {:induction false} LineBreaksOfText(s: string)
    requires '\n' !in s
    ensures LineBreaks(s) == 0
    decreases |s|
  {
    if |s| > 0 {
      assert '\n' !in s[..|s| - 1] by {
        assert forall i :: 0 <= i < |s| - 1 ==> s[..|s| - 1][i] == s[i];
      }
      LineBreaksOfText(s[..|s| - 1]);
    }
  }

  /** A row whose name and rendered numbers hold no line break makes exactly one line. */
  lemma DebugLineCount(r: DebugRow, show: real -> string)
    requires '\n' !in r.name && '\n' !in show(r.current) && '\n' !in show(r.base)
    ensures LineBreaks(DebugLine(r, show)) == 1
  {
    var text := "- " + r.name + ": " + show(r.current) + " (Base: " + show(r.base) + ")";
    assert '\n' !in text;
    LineBreaksOfLine(text);
    assert DebugLine(r, show) == text + "\n";
  }

  /**
   * When neither the id, the names nor the rendered numbers contain a line break,
   * the report has exactly one line per row after its header.
   */
  lemma {:induction false} DebugReportLineCount(id: string, rows: seq<DebugRow>, show: real -> string)
    requires '\n' !in id
    requires forall i :: 0 <= i < |rows| ==>
      '\n' !in rows[i].name && '\n' !in show(rows[i].current) && '\n' !in show(rows[i].base)
    ensures LineBreaks(DebugReport(id, rows, show)) == |rows| + 1
    decreases |rows|
  {
    if |rows| == 0 {
      LineBreaksOfLine("= [STATS<" + id + ">]");
      assert DebugHeader(id) == ("= [STATS<" + id + ">]") + "\n";
    } else {
      var r := rows[|rows| - 1];
      DebugLineCount(r, show);
      DebugReportLineCount(id, rows[..|rows| - 1], show);
      LineBreaksConcat(DebugReport(id, rows[..|rows| - 1], show), DebugLine(r, show));
    }
  }

  /** The report always opens with its header, whatever the rows. */
  lemma {:induction false} DebugReportStartsWithHeader(id: string, rows: seq<DebugRow>, show: real -> string)
    ensures |DebugHeader(id)| <= |DebugReport(id, rows, show)|
    ensures DebugReport(id, rows, show)[..|DebugHeader(id)|] == DebugHeader(id)
    decreases |rows|
  {
    if |rows| > 0 {
      var prefix := DebugReport(id, rows[..|rows| - 1], show);
      DebugReportStartsWithHeader(id, rows[..|rows| - 1], show);
      assert (prefix + DebugLine(rows[|rows| - 1], show))[..|DebugHeader(id)|] == prefix[..|DebugHeader(id)|];
    }
  }

  /** The container id chosen by the constructor; None stands for a null argument. */
  function ContainerId(id: Option<string>): (r: string)
    ensures r != ""
    ensures id.Some? && id.value != "" ==> r == id.value
    ensures id.None? || id.value == "" ==> r == DefaultContainerId
  {
    if id.None? || id.value == "" then DefaultContainerId else id.value
  }

  /**
   * The base value a write of `value` to `statKey` stores: the registered handler's
   * answer unless the write bypasses handlers or none is registered, else `value` itself.
   * The answer is the handler's delegate applied to the arguments, which is what
   * HandleValueChange returns (SetStatBaseValue calls it and relies on its contract).
   */
  function StoredBase(
    handlers: map<string, StatBaseValueChangeHandler>,
    statKey: string,
    value: real,
    bypassStatHandler: bool): real
  {
    if !bypassStatHandler && statKey in handlers then handlers[statKey].handler(statKey, value) else value
  }

  /** The base values after restoring the first `n` entries one by one over `bases`, through the handlers. */
  function RestoredBases(
    bases: map<string, real>,
    handlers: map<string, StatBaseValueChangeHandler>,
    entries: seq<StatWrapper>,
    n: nat): map<string, real>
    requires n <= |entries|
  {
    if n == 0 then bases
    else
      var e := entries[n - 1];
      RestoredBases(bases, handlers, entries, n - 1)[e.statName := StoredBase(handlers, e.statName, e.baseValue, false)]
  }

  /** The iteration order after restoring the first `n` entries: names not yet present join at the end. */
  function RestoredOrder(order: seq<string>, entries: seq<StatWrapper>, n: nat): seq<string>
    requires n <= |entries|
  {
    if n == 0 then order
    else
      var o := RestoredOrder(order, entries, n - 1);
      if entries[n - 1].statName in o then o else o + [entries[n - 1].statName]
  }

  /** A snapshot lists every stat of `order` with the base value `bases` gives it. */
  predicate IsSnapshotOf(state: StatsContainerState, order: seq<string>, bases: map<string, real>) {
    && state.statCount == |state.stats| == |order|
    && forall i :: 0 <= i < |order| ==>
         order[i] in bases && state.stats[i] == StatWrapper(order[i], bases[order[i]])
  }

  /**
   * Restoring entries that each name a known stat and carry a value its handler
   * leaves as it is changes no base value.
   */
  lemma {:induction false} RestoreFixedPoints(
    bases: map<string, real>,
    handlers: map<string, StatBaseValueChangeHandler>,
    entries: seq<StatWrapper>,
    n: nat)
    requires n <= |entries|
    requires forall i :: 0 <= i < |entries| ==>
      entries[i].statName in bases && entries[i].baseValue == bases[entries[i].statName]
    requires forall k :: k in bases ==> StoredBase(handlers, k, bases[k], false) == bases[k]
    ensures RestoredBases(bases, handlers, entries, n) == bases
  {
    if n > 0 {
      RestoreFixedPoints(bases, handlers, entries, n - 1);
      var e := entries[n - 1];
      assert bases[e.statName := StoredBase(handlers, e.statName, e.baseValue, false)] == bases;
    }
  }

  /** Restoring names that are all present already leaves the iteration order as it was. */
  lemma {:induction false} RestoredOrderOfKnownNames(order: seq<string>, entries: seq<StatWrapper>, n: nat)
    requires n <= |entries|
    requires forall i :: 0 <= i < |entries| ==> entries[i].statName in order
    ensures RestoredOrder(order, entries, n) == order
  {
    if n > 0 {
      RestoredOrderOfKnownNames(order, entries, n - 1);
    }
  }

  /**
   * Restoring a snapshot of a container with no base-value handler leaves every base
   * value and the iteration order as they were.
   */
  lemma SnapshotRoundTrip(state: StatsContainerState, order: seq<string>, bases: map<string, real>)
    requires IsSnapshotOf(state, order, bases)
    ensures RestoredBases(bases, map[], state.stats, |state.stats|) == bases
    ensures RestoredOrder(order, state.stats, |state.stats|) == order
  {
    RestoreFixedPoints(bases, map[], state.stats, |state.stats|);
    assert forall i :: 0 <= i < |state.stats| ==> state.stats[i].statName == order[i];
    RestoredOrderOfKnownNames(order, state.stats, |state.stats|);
  }

  /** The names of a list of stats, in order. */
  function Names(s: seq<Stat>): (r: seq<string>)
    ensures |r| == |s| && forall i :: 0 <= i < |s| ==> r[i] == s[i].name
  {
    seq(|s|, i requires 0 <= i < |s| => s[i].name)
  }

  /** `stats` with each stat of `added` stored under its name, in order. */
  function Added(stats: map<string, Stat>, added: seq<Stat>): map<string, Stat>
    decreases |added|
  {
    if |added| == 0 then stats
    else Added(stats, added[..|added| - 1])[added[|added| - 1].name := added[|added| - 1]]
  }

  /** Adding one more stat of the collection appends its name to the order. */
  lemma NamesStep(order: seq<string>, collection: seq<Stat>, i: nat)
    requires i < |collection|
    ensures order + Names(collection[..i + 1]) == order + Names(collection[..i]) + [collection[i].name]
  {
  }

  /** Adding one more stat of the collection stores it under its name. */
  lemma AddedStep(stats: map<string, Stat>, collection: seq<Stat>, i: nat)
    requires i < |collection|
    ensures Added(stats, collection[..i + 1]) == Added(stats, collection[..i])[collection[i].name := collection[i]]
  {
    assert collection[..i + 1][..i] == collection[..i];
  }

  /**
   * The outcome of adding a collection: its first `n` stats were added in order, and
   * either all of them were (success) or the next one's name was already taken (failure).
   */
  ghost predicate AddedPrefix(
    stats0: map<string, Stat>, order0: seq<string>, collection: seq<Stat>, n: int,
    stats: map<string, Stat>, order: seq<string>, r: Outcome<StatError>)
  {
    && 0 <= n <= |collection|
    && stats == Added(stats0, collection[..n])
    && order == order0 + Names(collection[..n])
    && (r.Pass? <==> n == |collection|)
    && (r.Fail? ==> collection[n].name in order && r == Fail(DuplicateStat(collection[n].name)))
  }

  /** A second write to the same name replaces the first. */
  lemma OverwrittenBase(bases: map<string, real>, name: string, first: real, second: real)
    ensures bases[name := first][name := second] == bases[name := second]
  {
  }

  /**
   * `ev` is the notification SetOrAddStat re-raises when it writes the entry `e`: a
   * BaseValueChanged for the entry's name carrying the value the handlers store.
   */
  predicate IsRestoreEvent(ev: StatEvent, handlers: map<string, StatBaseValueChangeHandler>, e: StatWrapper) {
    && ev.BaseValueChanged?
    && ev.args.id == e.statName
    && ev.args.newBaseValue == StoredBase(handlers, e.statName, e.baseValue, false)
  }

  /** `added` holds one notification per restored entry, for the first `n` entries in order. */
  predicate RestoreLog(
    added: seq<StatEvent>,
    handlers: map<string, StatBaseValueChangeHandler>,
    entries: seq<StatWrapper>,
    n: nat)
    requires n <= |entries|
  {
    if n == 0 then added == []
    else
      && |added| == n
      && RestoreLog(added[..n - 1], handlers, entries, n - 1)
      && IsRestoreEvent(added[n - 1], handlers, entries[n - 1])
  }

  /** Restoring one more entry appends its notification to the log. */
  lemma RestoreLogStep(
    added: seq<StatEvent>,
    ev: StatEvent,
    handlers: map<string, StatBaseValueChangeHandler>,
    entries: seq<StatWrapper>,
    n: nat)
    requires n < |entries|
    requires RestoreLog(added, handlers, entries, n)
    requires IsRestoreEvent(ev, handlers, entries[n])
    ensures RestoreLog(added + [ev], handlers, entries, n + 1)
  {
    assert (added + [ev])[..n] == added;
  }

  /** The `j`-th notification of a restore log is the one the `j`-th entry raises. */
  lemma {:induction false} RestoreLogAt(
    added: seq<StatEvent>,
    handlers: map<string, StatBaseValueChangeHandler>,
    entries: seq<StatWrapper>,
    n: nat,
    j: nat)
    requires n <= |entries| && j < n
    requires RestoreLog(added, handlers, entries, n)
    ensures |added| == n && IsRestoreEvent(added[j], handlers, entries[j])
  {
    if j < n - 1 {
      RestoreLogAt(added[..n - 1], handlers, entries, n - 1, j);
    }
  }

  /** No name occurs twice. */
  ghost predicate NoDuplicates(s: seq<string>) {
    forall x :: multiset(s)[x] <= 1
  }

  class StatsContainer {
    const id: string
    var stats: map<string, Stat>
    /** The order in which the stats were added, which is the order the dictionary enumerates them in. */
    var order: seq<string>
    var baseHandlers: map<string, StatBaseValueChangeHandler>
    var currentHandlers: map<string, StatBaseValueChangeHandler>
    /** Every notification re-raised on the container's own events, oldest first. */
    var events: seq<StatEvent>
    /** Every warning logged by the lenient modifier operations, oldest first. */
    var warnings: seq<Warning>
    /** The base value of every stat, by name: the view snapshots are taken from. */
    ghost var baseValues: map<string, real>
    /** The stat objects the container holds: what its operations may read and change. */
    ghost var statObjects: set<Stat>

    /**
     * Each stat is stored under its own name and is valid; the order lists each name once;
     * each handler is stored under the name it targets.
     */
    ghost predicate Valid()
      reads this`stats, this`order, this`baseValues, this`statObjects, this`baseHandlers, this`currentHandlers
      reads statObjects`baseValue, statObjects`currentValue, statObjects`modifiers
    {
      && baseValues.Keys == stats.Keys
      && (forall k :: k in stats ==>
            && stats[k] in statObjects && stats[k].name == k
            && stats[k].baseValue == baseValues[k])
      && (forall k {:trigger stats[k].Valid()} :: k in stats ==> stats[k].Valid())
      && (forall k :: k in stats <==> k in order)
      && NoDuplicates(order)
      && (forall k :: k in baseHandlers ==> baseHandlers[k].targetStat == k)
      && (forall k :: k in currentHandlers ==> currentHandlers[k].targetStat == k)
    }

    /**
     * When the stat stored under `key` is the only object that changed, it is still valid,
     * and the base-value view records its new base, the container is valid again.
     */
    twostate lemma OneStatChanged(key: string)
      requires old(Valid()) && key in stats
      requires stats == old(stats) && order == old(order) && statObjects == old(statObjects)
      requires baseHandlers == old(baseHandlers) && currentHandlers == old(currentHandlers)
      requires stats[key].Valid()
      requires baseValues.Keys == old(baseValues).Keys && key in baseValues && baseValues[key] == stats[key].baseValue
      requires forall k :: k in stats && k != key ==> k in baseValues && baseValues[k] == old(baseValues[k])
      requires forall k :: k in stats && k != key ==> unchanged(stats[k])
      ensures Valid()
    {
    }

    /** An empty container whose id is `id`, or the default id when `id` is null or empty. */
    constructor (id: Option<string>)
      ensures Valid()
      ensures this.id == ContainerId(id)
      ensures stats == map[] && order == [] && baseHandlers == map[] && currentHandlers == map[]
      ensures events == [] && warnings == [] && baseValues == map[] && statObjects == {}
    {
      this.id := ContainerId(id);
      stats := map[];
      order := [];
      baseHandlers := map[];
      currentHandlers := map[];
      events := [];
      warnings := [];
      baseValues := map[];
      statObjects := {};
    }

    /** Whether a stat of that name is present: exactly when the name is among the listed stats. */
    predicate StatExists(statKey: string): (r: bool)
      reads this, statObjects
      requires Valid()
      ensures r <==> statKey in order
    {
      statKey in stats
    }

    /** The stat stored under that name; a missing name is a hard failure. */
    function GetStat(statKey: string): (r: Result<Stat, StatError>)
      reads this, statObjects
      requires Valid()
      ensures r.Success? <==> statKey in order
      ensures r.Success? ==> r.value.name == statKey && r.value.Valid()
      ensures r.Failure? ==> r.error == StatNotFound(statKey)
    {
      if !StatExists(statKey) then Failure(StatNotFound(statKey)) else Success(stats[statKey])
    }

    /** The base value of the named stat; a missing name is a hard failure. */
    function GetStatBaseValue(statKey: string): (r: Result<real, StatError>)
      reads this, statObjects
      requires Valid()
      ensures r.Success? <==> statKey in order
      ensures r.Success? ==> statKey in baseValues && r.value == baseValues[statKey]
      ensures r.Failure? ==> r.error == StatNotFound(statKey)
    {
      match GetStat(statKey)
      case Success(stat) => Success(stat.baseValue)
      case Failure(e) => Failure(e)
    }

    /** The current value of the named stat, which the value rule determines; a missing name fails. */
    function GetStatCurrentValue(statKey: string): (r: Result<real, StatError>)
      reads this, statObjects
      requires Valid()
      ensures r.Success? <==> statKey in order
      ensures r.Success? ==> r.value == Compute(stats[statKey].baseValue, stats[statKey].modifiers)
      ensures r.Failure? ==> r.error == StatNotFound(statKey)
    {
      match GetStat(statKey)
      case Success(stat) => Success(stat.currentValue)
      case Failure(e) => Failure(e)
    }

    /** Adds the stat under its name; a name already present is a hard failure and changes nothing. */
    method AddStat(newStat: Stat) returns (r: Outcome<StatError>)
      requires Valid() && newStat.Valid()
      modifies this`stats, this`order, this`baseValues, this`statObjects
      ensures Valid()
      ensures r == if newStat.name in old(stats) then Fail(DuplicateStat(newStat.name)) else Pass
      ensures r.Pass? ==> stats == old(stats)[newStat.name := newStat] && order == old(order) + [newStat.name]
      ensures r.Fail? ==> stats == old(stats) && order == old(order)
      ensures baseValues == if r.Pass? then old(baseValues)[newStat.name := newStat.baseValue] else old(baseValues)
      ensures statObjects == if r.Pass? then old(statObjects) + {newStat} else old(statObjects)
    {
      if StatExists(newStat.name) {
        return Fail(DuplicateStat(newStat.name));
      }
      stats := stats[newStat.name := newStat];
      order := order + [newStat.name];
      baseValues := baseValues[newStat.name := newStat.baseValue];
      statObjects := statObjects + {newStat};
      r := Pass;
    }

    /**
     * Writes a base value: through the registered handler unless `bypassStatHandler`,
     * raw otherwise. The stat recomputes and its BaseValueChanged is re-raised here.
     * A missing name is a hard failure and changes nothing; other stats never change.
     */
    method SetStatBaseValue(statKey: string, value: real, bypassStatHandler: bool) returns (r: Outcome<StatError>)
      requires Valid()
      modifies this`events, this`baseValues, statObjects`baseValue, statObjects`currentValue, statObjects`events
      ensures Valid()
      ensures r == if statKey in stats then Pass else Fail(StatNotFound(statKey))
      ensures forall k :: k in stats && k != statKey ==> unchanged(stats[k])
      ensures statKey !in stats ==> events == old(events)
      ensures statKey in stats ==>
        var s := stats[statKey];
        var stored := StoredBase(baseHandlers, statKey, value, bypassStatHandler);
        var e := BaseValueChanged(StatChangedEventArgs(statKey, old(s.baseValue), stored, Compute(stored, s.modifiers)));
        && s.baseValue == stored
        && events == old(events) + [e]
        && baseValues == old(baseValues)[statKey := stored]
      ensures statKey !in stats ==> baseValues == old(baseValues)
    {
      var found := GetStat(statKey);
      if found.Failure? {
        return Fail(found.error);
      }
      var stat := found.value;
      var stored := if !bypassStatHandler && statKey in baseHandlers
        then HandleValueChange(baseHandlers[statKey], statKey, value) else value;
      assert stored == StoredBase(baseHandlers, statKey, value, bypassStatHandler);
      assert forall k :: k in stats && k != statKey ==> stats[k] != stat;
      baseValues := baseValues[statKey := stored];
      stat.SetBaseValue(stored);
      assert stats[statKey] == stat && stat.Valid();
      events := events + [stat.events[|stat.events| - 1]];
      OneStatChanged(statKey);
      r := Pass;
    }

    /**
     * Creates the stat with that value when the name is absent, then in every case
     * writes the value through SetStatBaseValue, so a registered handler also rewrites
     * the initial value of a new stat.
     */
    method SetOrAddStat(statId: string, value: real)
      requires Valid()
      modifies this`stats, this`order, this`baseValues, this`statObjects, this`events
      modifies statObjects`baseValue, statObjects`currentValue, statObjects`events
      ensures Valid()
      ensures statId in stats && stats == old(stats)[statId := stats[statId]]
      ensures statObjects == if statId in old(stats) then old(statObjects) else old(statObjects) + {stats[statId]}
      ensures statId !in old(stats) ==> fresh(stats[statId]) && stats[statId].modifiers == []
      ensures order == if statId in old(stats) then old(order) else old(order) + [statId]
      ensures baseValues == old(baseValues)[statId := StoredBase(baseHandlers, statId, value, false)]
      ensures forall k :: k in old(stats) && k != statId ==> unchanged(stats[k])
      ensures statId in old(stats) ==> stats[statId] == old(stats[statId])
      ensures events == old(events) + [BaseValueChanged(StatChangedEventArgs(
        statId,
        if statId in old(stats) then old(stats[statId].baseValue) else value,
        StoredBase(baseHandlers, statId, value, false),
        stats[statId].currentValue))]
    {
      if StatExists(statId) {
        var written := SetStatBaseValue(statId, value, false);
      } else {
        var created := new Stat(statId, value);
        var added := AddStat(created);
        var written := SetStatBaseValue(statId, value, false);
        OverwrittenBase(old(baseValues), statId, value, StoredBase(baseHandlers, statId, value, false));
      }
      assert stats[statId].Valid();
    }

    /**
     * Adds the stats in order and stops at the first whose name is already taken
     * (by an earlier stat or an earlier element of the collection); the stats added
     * before it stay.
     */
    method AddStatRange(statsCollection: seq<Stat>) returns (r: Outcome<StatError>)
      requires Valid()
      requires forall i :: 0 <= i < |statsCollection| ==> statsCollection[i].Valid()
      modifies this`stats, this`order, this`baseValues, this`statObjects
      ensures Valid()
      ensures exists n :: AddedPrefix(old(stats), old(order), statsCollection, n, stats, order, r)
    {
      var i := 0;
      while i < |statsCollection|
        invariant 0 <= i <= |statsCollection|
        invariant Valid()
        invariant order == old(order) + Names(statsCollection[..i])
        invariant stats == Added(old(stats), statsCollection[..i])
      {
        var added := AddStat(statsCollection[i]);
        if added.Fail? {
          assert AddedPrefix(old(stats), old(order), statsCollection, i, stats, order, added);
          return added;
        }
        NamesStep(old(order), statsCollection, i);
        AddedStep(old(stats), statsCollection, i);
        i := i + 1;
      }
      assert statsCollection[..i] == statsCollection;
      r := Pass;
      assert AddedPrefix(old(stats), old(order), statsCollection, i, stats, order, r);
    }

    /**
     * Writes the stat's current value plus `value` (not its base value plus `value`)
     * through SetStatBaseValue; a missing name is a hard failure and changes nothing.
     */
    method AddToStatBaseValue(statKey: string, value: real, bypassStatHandler: bool) returns (r: Outcome<StatError>)
      requires Valid()
      modifies this`events, this`baseValues, statObjects`baseValue, statObjects`currentValue, statObjects`events
      ensures Valid()
      ensures r == if statKey in stats then Pass else Fail(StatNotFound(statKey))
      ensures baseValues == if statKey in stats
        then old(baseValues)[statKey := StoredBase(baseHandlers, statKey, old(stats[statKey].currentValue) + value, bypassStatHandler)]
        else old(baseValues)
      ensures forall k :: k in stats && k != statKey ==> unchanged(stats[k])
      ensures statKey !in stats ==> events == old(events)
      ensures statKey in stats ==>
        var s := stats[statKey];
        var stored := StoredBase(baseHandlers, statKey, old(s.currentValue) + value, bypassStatHandler);
        var e := BaseValueChanged(StatChangedEventArgs(statKey, old(s.baseValue), stored, Compute(stored, s.modifiers)));
        && s.baseValue == stored
        && events == old(events) + [e]
    {
      var current := GetStatCurrentValue(statKey);
      if current.Failure? {
        return Fail(current.error);
      }
      r := SetStatBaseValue(statKey, current.value + value, bypassStatHandler);
    }

    /**
     * Adds the modifier to the named stat and re-raises its ModifierAdded; on a missing
     * name it only logs a warning.
     */
    method ApplyModifier(statKey: string, modifier: StatModifier)
      requires Valid() && ValidModifier(modifier)
      modifies this`events, this`warnings, statObjects`modifiers, statObjects`currentValue, statObjects`events
      ensures Valid()
      ensures forall k :: k in stats && k != statKey ==> unchanged(stats[k])
      ensures statKey !in stats ==> warnings == old(warnings) + [ApplyModifierToMissingStat(statKey)] && events == old(events)
      ensures statKey in stats ==>
        var s := stats[statKey];
        var e := ModifierAdded(StatChangedEventArgs(statKey, s.baseValue, s.baseValue, Compute(s.baseValue, s.modifiers)));
        && warnings == old(warnings)
        && s.modifiers == old(s.modifiers) + [modifier]
        && events == old(events) + [e]
    {
      if !StatExists(statKey) {
        warnings := warnings + [ApplyModifierToMissingStat(statKey)];
        return;
      }
      var stat := stats[statKey];
      assert forall k :: k in stats && k != statKey ==> stats[k] != stat;
      stat.AddModifier(modifier);
      assert stats[statKey] == stat && stat.Valid();
      events := events + [stat.events[|stat.events| - 1]];
      OneStatChanged(statKey);
    }

    /**
     * Removes the first modifier with that id from the named stat, re-raising its
     * ModifierRemoved when one was removed; on a missing name it only logs a warning.
     */
    method RemoveModifier(statKey: string, id: string)
      requires Valid()
      modifies this`events, this`warnings, statObjects`modifiers, statObjects`currentValue, statObjects`events
      ensures Valid()
      ensures forall k :: k in stats && k != statKey ==> unchanged(stats[k])
      ensures statKey !in stats ==> warnings == old(warnings) + [RemoveModifierFromMissingStat(statKey)] && events == old(events)
      ensures statKey in stats ==>
        var s := stats[statKey];
        var e := ModifierRemoved(StatChangedEventArgs(statKey, s.baseValue, s.baseValue, Compute(s.baseValue, s.modifiers)));
        && warnings == old(warnings)
        && s.modifiers == RemoveFirst(old(s.modifiers), id)
        && events == (if HasId(old(s.modifiers), id) then old(events) + [e] else old(events))
    {
      if !StatExists(statKey) {
        warnings := warnings + [RemoveModifierFromMissingStat(statKey)];
        return;
      }
      var stat := stats[statKey];
      var before := |stat.events|;
      assert forall k :: k in stats && k != statKey ==> stats[k] != stat;
      stat.RemoveModifier(id, false);
      assert stats[statKey] == stat && stat.Valid();
      if |stat.events| > before {
        events := events + [stat.events[|stat.events| - 1]];
      }
      OneStatChanged(statKey);
    }

    /** Registers a base-value handler; a second one for the same stat name is a hard failure. */
    method RegisterBaseValueHandler(handler: StatBaseValueChangeHandler) returns (r: Outcome<StatError>)
      requires Valid()
      modifies this`baseHandlers
      ensures Valid()
      ensures r == if handler.targetStat in old(baseHandlers) then Fail(DuplicateHandler(handler.targetStat)) else Pass
      ensures baseHandlers == if r.Pass? then old(baseHandlers)[handler.targetStat := handler] else old(baseHandlers)
    {
      if handler.targetStat in baseHandlers {
        return Fail(DuplicateHandler(handler.targetStat));
      }
      baseHandlers := baseHandlers[handler.targetStat := handler];
      r := Pass;
    }

    /** Drops the base-value handler for that name; nothing happens when there is none. */
    method UnregisterBaseValueHandler(targetStat: string)
      requires Valid()
      modifies this`baseHandlers
      ensures Valid()
      ensures baseHandlers == old(baseHandlers) - {targetStat}
    {
      if targetStat !in baseHandlers {
        return;
      }
      baseHandlers := baseHandlers - {targetStat};
    }

    /**
     * Registers a current-value handler under the same one-per-name rule. It is only
     * stored: no operation ever consults it, so no stat value depends on it.
     */
    method RegisterCurrentValueHandler(handler: StatBaseValueChangeHandler) returns (r: Outcome<StatError>)
      requires Valid()
      modifies this`currentHandlers
      ensures Valid()
      ensures r == if handler.targetStat in old(currentHandlers) then Fail(DuplicateHandler(handler.targetStat)) else Pass
      ensures currentHandlers == if r.Pass? then old(currentHandlers)[handler.targetStat := handler] else old(currentHandlers)
    {
      if handler.targetStat in currentHandlers {
        return Fail(DuplicateHandler(handler.targetStat));
      }
      currentHandlers := currentHandlers[handler.targetStat := handler];
      r := Pass;
    }

    /** Drops the current-value handler for that name; nothing happens when there is none. */
    method UnregisterCurrentValueHandler(targetStat: string)
      requires Valid()
      modifies this`currentHandlers
      ensures Valid()
      ensures currentHandlers == old(currentHandlers) - {targetStat}
    {
      if targetStat !in currentHandlers {
        return;
      }
      currentHandlers := currentHandlers - {targetStat};
    }

    /** Lists (name, base value) for every stat in iteration order, with the count of entries. */
    method GetState() returns (state: StatsContainerState)
      requires Valid()
      ensures IsSnapshotOf(state, order, baseValues)
    {
      var entries: seq<StatWrapper> := [];
      var i := 0;
      while i < |order|
        invariant 0 <= i <= |order|
        invariant |entries| == i
        invariant forall j :: 0 <= j < i ==> entries[j] == StatWrapper(order[j], stats[order[j]].baseValue)
      {
        var stat := stats[order[i]];
        entries := entries + [StatWrapper(stat.name, stat.baseValue)];
        i := i + 1;
      }
      state := StatsContainerState(|entries|, entries);
    }

    /** The rows of the debug report: every stat in iteration order with its current and base value. */
    ghost function DebugRows(): (rows: seq<DebugRow>)
      reads this, statObjects
      requires Valid()
      ensures |rows| == |order|
      ensures forall i :: 0 <= i < |order| ==>
        rows[i] == DebugRow(order[i], stats[order[i]].currentValue, stats[order[i]].baseValue)
    {
      seq(|order|, i requires 0 <= i < |order| && order[i] in stats && stats[order[i]] in statObjects
                     reads this, statObjects =>
        DebugRow(order[i], stats[order[i]].currentValue, stats[order[i]].baseValue))
    }

    /** The debug report of the container: its header, then one line per stat in iteration order. */
    method GetDebugInfo(show: real -> string) returns (info: string)
      requires Valid()
      ensures info == DebugReport(id, DebugRows(), show)
    {
      ghost var rows := DebugRows();
      info := "= [STATS<" + id + ">]";
      info := info + "\n";
      var i := 0;
      while i < |order|
        invariant 0 <= i <= |order|
        invariant info == DebugReport(id, rows[..i], show)
      {
        var stat := stats[order[i]];
        info := info + "- " + stat.name + ": " + show(stat.currentValue) + " (Base: " + show(stat.baseValue) + ")" + "\n";
        assert rows[..i + 1][..i] == rows[..i];
        i := i + 1;
      }
      assert rows[..i] == rows;
    }

    /** One step of ApplyState: the entry written through SetOrAddStat. */
    method RestoreEntry(e: StatWrapper) returns (ghost ev: StatEvent)
      requires Valid()
      modifies this`stats, this`order, this`baseValues, this`statObjects, this`events
      modifies statObjects`baseValue, statObjects`currentValue, statObjects`events
      ensures Valid()
      ensures fresh(statObjects - old(statObjects))
      ensures baseValues == old(baseValues)[e.statName := StoredBase(baseHandlers, e.statName, e.baseValue, false)]
      ensures order == if e.statName in old(order) then old(order) else old(order) + [e.statName]
      ensures forall k :: k in old(stats) ==> k in stats && stats[k] == old(stats[k])
      ensures forall k :: k in stats && k !in old(stats) ==> k == e.statName && stats[k].modifiers == []
      ensures events == old(events) + [ev] && IsRestoreEvent(ev, baseHandlers, e)
    {
      SetOrAddStat(e.statName, e.baseValue);
      ev := events[|events| - 1];
    }

    /**
     * Upserts every snapshot entry in order through SetOrAddStat (so handlers apply);
     * no stat is removed and no modifier is touched. The count field is not consulted.
     */
    method ApplyState(state: StatsContainerState) returns (ghost added: seq<StatEvent>)
      requires Valid()
      modifies this`stats, this`order, this`baseValues, this`statObjects, this`events
      modifies statObjects`baseValue, statObjects`currentValue, statObjects`events
      ensures Valid()
      ensures fresh(statObjects - old(statObjects))
      ensures baseValues == RestoredBases(old(baseValues), baseHandlers, state.stats, |state.stats|)
      ensures order == RestoredOrder(old(order), state.stats, |state.stats|)
      ensures forall k :: k in old(stats) ==> k in stats && stats[k] == old(stats[k])
      ensures forall k :: k in stats && k !in old(stats) ==> stats[k].modifiers == []
      ensures events == old(events) + added && RestoreLog(added, baseHandlers, state.stats, |state.stats|)
    {
      ghost var stats0, events0 := stats, events;
      added := [];
      var i := 0;
      while i < |state.stats|
        invariant 0 <= i <= |state.stats|
        invariant Valid()
        invariant fresh(statObjects - old(statObjects))
        invariant baseValues == RestoredBases(old(baseValues), baseHandlers, state.stats, i)
        invariant order == RestoredOrder(old(order), state.stats, i)
        invariant forall k :: k in stats0 ==> k in stats && stats[k] == stats0[k]
        invariant forall k :: k in stats && k !in stats0 ==> stats[k].modifiers == []
        invariant events == events0 + added && RestoreLog(added, baseHandlers, state.stats, i)
      {
        ghost var ev := RestoreEntry(state.stats[i]);
        RestoreLogStep(added, ev, baseHandlers, state.stats, i);
        added := added + [ev];
        i := i + 1;
      }
    }
  }
}
